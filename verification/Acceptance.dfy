/** The acceptance fact of a campaign result: which commit, if any, the recorded reviews accept. */
module Acceptance {
  import opened Basics
  import opened ResultRecords

  // -------------------------------------------------------------------- result rows

  datatype Commit = Commit(task: Id, name: Id, commit: Option<Id>)

  datatype Row = Row(
    task: Id, succeeded: bool, verdict: Option<Verdict>, gate: Option<Gate>, commits: seq<Commit>,
    reviewed: seq<Commit>, verification: VerificationState)

  datatype Accepted = Accepted(commit: Id, review: Id, verified: Id)

  // ------------------------------------------------------------ what a review is about

  /** The rows by task name; of two rows with one name the later is meant. */
  function ByName(rows: seq<Row>): map<Id, nat> {
    if rows == [] then map[] else ByName(rows[..|rows| - 1])[rows[|rows| - 1].task := |rows| - 1]
  }

  /** The last row of this name. */
  ghost predicate IsRowOf(rows: seq<Row>, name: Id, p: nat) {
    p < |rows| && rows[p].task == name && forall q | p < q < |rows| :: rows[q].task != name
  }

  lemma {:induction false} ByNameIs(rows: seq<Row>)
    ensures forall name <- ByName(rows).Keys :: IsRowOf(rows, name, ByName(rows)[name])
    ensures forall r <- rows :: r.task in ByName(rows)
  {
    if rows != [] {
      var init := rows[..|rows| - 1];
      ByNameIs(init);
      assert rows == init + [rows[|rows| - 1]];
    }
  }

  function Named(commits: seq<Commit>, name: Id): seq<Commit> {
    if commits == [] then [] else (if commits[0].name == name then [commits[0]] else []) + Named(commits[1..], name)
  }

  function Consumed(commits: seq<Commit>, names: seq<Id>): seq<Commit> {
    if names == [] then [] else Named(commits, names[0]) + Consumed(commits, names[1..])
  }

  ghost predicate Indexed(rows: seq<Row>, byName: map<Id, nat>) {
    forall name <- byName.Keys :: byName[name] < |rows|
  }

  /** What one producer supplies: nothing when the campaign has no row of it. */
  function Supplied(rows: seq<Row>, byName: map<Id, nat>, input: Input): seq<Commit>
    requires Indexed(rows, byName)
  {
    if input.producer in byName then Consumed(rows[byName[input.producer]].commits, input.names) else []
  }

  /** The commits a reviewing task consumed: its producers' declared commit outputs. */
  function ReviewedBy(rows: seq<Row>, byName: map<Id, nat>, inputs: seq<Input>): seq<Commit>
    requires Indexed(rows, byName)
  {
    if inputs == [] then [] else Supplied(rows, byName, inputs[0]) + ReviewedBy(rows, byName, inputs[1..])
  }

  /** A reviewed commit is one its producer's row records. */
  ghost predicate Recorded(rows: seq<Row>, byName: map<Id, nat>, commits: seq<Commit>) {
    forall k <- commits :: k.task in byName && byName[k.task] < |rows| && k in rows[byName[k.task]].commits
  }

  ghost predicate OwnNames(rows: seq<Row>) {
    forall r <- rows :: forall k <- r.commits :: k.task == r.task
  }

  lemma {:induction false} NamedAre(commits: seq<Commit>, name: Id)
    ensures forall k :: k in Named(commits, name) <==> k in commits && k.name == name
  {
    if commits != [] {
      NamedAre(commits[1..], name);
    }
  }

  lemma {:induction false} ConsumedAre(commits: seq<Commit>, names: seq<Id>)
    ensures forall k :: k in Consumed(commits, names) <==> k in commits && k.name in names
  {
    if names != [] {
      NamedAre(commits, names[0]);
      ConsumedAre(commits, names[1..]);
    }
  }

  /** The row of the input's producer records `k` under one of the names the input gives. */
  ghost predicate Consumes(rows: seq<Row>, input: Input, k: Commit) {
    exists p: nat :: IsRowOf(rows, input.producer, p) && k in rows[p].commits && k.name in input.names
  }

  lemma InputConsumes(rows: seq<Row>, input: Input)
    requires Indexed(rows, ByName(rows))
    ensures forall k :: k in Supplied(rows, ByName(rows), input) <==> Consumes(rows, input, k)
  {
    ByNameIs(rows);
    if input.producer in ByName(rows) {
      ConsumedAre(rows[ByName(rows)[input.producer]].commits, input.names);
    }
  }

  /** Exactly what a task with these inputs reviews: what the last row of each producer records under the names given. */
  lemma {:induction false} ReviewedExact(rows: seq<Row>, inputs: seq<Input>)
    requires Indexed(rows, ByName(rows))
    ensures forall k :: k in ReviewedBy(rows, ByName(rows), inputs) <==> exists input <- inputs :: Consumes(rows, input, k)
  {
    hide Consumes;
    if inputs != [] {
      ReviewedExact(rows, inputs[1..]);
      InputConsumes(rows, inputs[0]);
      assert forall input <- inputs :: input == inputs[0] || input in inputs[1..];
    }
  }

  lemma ReviewedAreRecorded(rows: seq<Row>, inputs: seq<Input>)
    requires OwnNames(rows) && Indexed(rows, ByName(rows))
    ensures Recorded(rows, ByName(rows), ReviewedBy(rows, ByName(rows), inputs))
  {
    ReviewedExact(rows, inputs);
    ByNameIs(rows);
    forall k <- ReviewedBy(rows, ByName(rows), inputs)
      ensures k.task in ByName(rows) && k in rows[ByName(rows)[k.task]].commits
    {
      var input :| input in inputs && Consumes(rows, input, k);
      var p: nat :| IsRowOf(rows, input.producer, p) && k in rows[p].commits && k.name in input.names;
      assert rows[p] in rows;
    }
  }

  // ----------------------------------------------------------------- the acceptance

  /** A review gate that passed as accepted-head binds commit `c` to this succeeded, verified attempt. */
  predicate Binds(row: Row, c: Id) {
    && row.gate.Some? && row.gate.value == Gate(true, Some(c))
    && row.succeeded && row.verification == Passed
    && exists k <- row.commits :: k.commit == Some(c)
  }

  /** Some row binds `c`. */
  ghost predicate Bound(rows: seq<Row>, c: Id) {
    exists r <- rows :: Binds(r, c)
  }

  predicate Rejected(rows: seq<Row>, c: Id) {
    exists r <- rows :: r.verdict == Some(ChangesRequested) && exists k <- r.reviewed :: k.commit == Some(c)
  }

  predicate Sealed(row: Row, c: Option<Id>) {
    && c.Some? && row.gate.Some? && row.gate.value == Gate(true, c)
    && row.succeeded && row.verification == Passed
  }

  /** What a row's own review gate accepts. */
  function OwnCandidates(row: Row, commits: seq<Commit>): seq<Accepted> {
    if commits == [] then []
    else
      OwnCandidates(row, commits[..|commits| - 1])
      + var c := commits[|commits| - 1].commit;
        if Sealed(row, c) then [Accepted(c.value, row.task, row.task)] else []
  }

  /** What a separate reviewer's ACCEPT adds: only commits the producer's own gate seals. */
  function ReviewCandidates(rows: seq<Row>, row: Row, reviewed: seq<Commit>): seq<Accepted>
    requires Recorded(rows, ByName(rows), reviewed)
  {
    if reviewed == [] then []
    else
      var k := reviewed[|reviewed| - 1];
      var producer := rows[ByName(rows)[k.task]];
      ReviewCandidates(rows, row, reviewed[..|reviewed| - 1])
      + if Sealed(producer, k.commit) then [Accepted(k.commit.value, row.task, producer.task)] else []
  }

  function RowCandidates(rows: seq<Row>, row: Row): seq<Accepted>
    requires Recorded(rows, ByName(rows), row.reviewed)
  {
    OwnCandidates(row, row.commits)
    + if row.verdict == Some(Accept) && row.succeeded then ReviewCandidates(rows, row, row.reviewed) else []
  }

  ghost predicate Linked(rows: seq<Row>) {
    forall r <- rows :: Recorded(rows, ByName(rows), r.reviewed)
  }

  /** The candidates of the first `n` rows, in manifest order. */
  function Candidates(rows: seq<Row>, n: nat): seq<Accepted>
    requires n <= |rows| && Linked(rows)
  {
    if n == 0 then [] else Candidates(rows, n - 1) + RowCandidates(rows, rows[n - 1])
  }

  function LastStanding(rows: seq<Row>, candidates: seq<Accepted>): Option<Accepted> {
    if candidates == [] then None
    else
      var c := candidates[|candidates| - 1];
      if Rejected(rows, c.commit) then LastStanding(rows, candidates[..|candidates| - 1]) else Some(c)
  }

  function AcceptanceOf(rows: seq<Row>): Option<Accepted>
    requires Linked(rows)
  {
    LastStanding(rows, Candidates(rows, |rows|))
  }

  lemma {:induction false} OwnCandidatesAre(row: Row, commits: seq<Commit>)
    ensures forall c :: c in OwnCandidates(row, commits) <==>
      && c == Accepted(c.commit, row.task, row.task) && Sealed(row, Some(c.commit))
      && exists k <- commits :: k.commit == Some(c.commit)
  {
    if commits != [] {
      var init, last := commits[..|commits| - 1], commits[|commits| - 1];
      assert commits == init + [last];
      OwnCandidatesAre(row, init);
    }
  }

  /** A separate reviewer's ACCEPT yields no commit that its producer's own review gate does not already accept. */
  lemma {:induction false} SeparateReviewAddsNone(rows: seq<Row>, row: Row, reviewed: seq<Commit>)
    requires Recorded(rows, ByName(rows), reviewed)
    ensures forall c <- ReviewCandidates(rows, row, reviewed) ::
      exists producer <- rows :: producer.task == c.verified && Binds(producer, c.commit)
        && Accepted(c.commit, producer.task, producer.task) in OwnCandidates(producer, producer.commits)
  {
    if reviewed != [] {
      var init, k := reviewed[..|reviewed| - 1], reviewed[|reviewed| - 1];
      SeparateReviewAddsNone(rows, row, init);
      var producer := rows[ByName(rows)[k.task]];
      assert producer in rows && k in producer.commits;
      OwnCandidatesAre(producer, producer.commits);
    }
  }

  lemma RowCandidatesAre(rows: seq<Row>, row: Row)
    requires Recorded(rows, ByName(rows), row.reviewed) && row in rows
    ensures forall c <- RowCandidates(rows, row) :: exists r <- rows :: r.task == c.verified && Binds(r, c.commit)
    ensures forall id :: Binds(row, id) ==> Accepted(id, row.task, row.task) in RowCandidates(rows, row)
  {
    OwnCandidatesAre(row, row.commits);
    SeparateReviewAddsNone(rows, row, row.reviewed);
  }

  lemma {:induction false} CandidatesAre(rows: seq<Row>, n: nat)
    requires n <= |rows| && Linked(rows)
    ensures forall c <- Candidates(rows, n) :: exists r <- rows :: r.task == c.verified && Binds(r, c.commit)
    ensures forall i, id | 0 <= i < n && Binds(rows[i], id) :: Accepted(id, rows[i].task, rows[i].task) in Candidates(rows, n)
  {
    if n > 0 {
      hide Binds, RowCandidates;
      CandidatesAre(rows, n - 1);
      RowCandidatesAre(rows, rows[n - 1]);
    }
  }

  lemma {:induction false} LastStandingIs(rows: seq<Row>, candidates: seq<Accepted>)
    ensures match LastStanding(rows, candidates)
            case Some(c) => c in candidates && !Rejected(rows, c.commit)
            case None => forall c <- candidates :: Rejected(rows, c.commit)
  {
    if candidates != [] {
      hide Rejected;
      var init, c := candidates[..|candidates| - 1], candidates[|candidates| - 1];
      assert candidates == init + [c];
      LastStandingIs(rows, init);
    }
  }

  /**
   A commit is accepted exactly when some review gate passed as accepted-head
   binds it to a succeeded attempt with passed verification that recorded that
   same commit, and no recorded verdict asked for changes on it.
   */
  lemma AcceptanceExact(rows: seq<Row>)
    requires Linked(rows)
    ensures AcceptanceOf(rows).Some? <==> exists c :: Bound(rows, c) && !Rejected(rows, c)
    ensures AcceptanceOf(rows).Some? ==>
      && !Rejected(rows, AcceptanceOf(rows).value.commit)
      && exists r <- rows :: r.task == AcceptanceOf(rows).value.verified && Binds(r, AcceptanceOf(rows).value.commit)
  {
    hide Binds, Rejected, Candidates;
    CandidatesAre(rows, |rows|);
    LastStandingIs(rows, Candidates(rows, |rows|));
    forall c | Bound(rows, c) && !Rejected(rows, c) ensures AcceptanceOf(rows).Some? {
      var i :| 0 <= i < |rows| && Binds(rows[i], c);
      assert Accepted(c, rows[i].task, rows[i].task) in Candidates(rows, |rows|);
    }
  }

  /** The one reported is the last in manifest order: no row after it offers a commit that still stands. */
  lemma {:induction false} LastInManifestOrder(rows: seq<Row>, n: nat)
    requires n <= |rows| && Linked(rows) && LastStanding(rows, Candidates(rows, n)).Some?
    ensures exists i | 0 <= i < n ::
      && LastStanding(rows, Candidates(rows, n)) == LastStanding(rows, RowCandidates(rows, rows[i]))
      && forall j | i < j < n :: forall c <- RowCandidates(rows, rows[j]) :: Rejected(rows, c.commit)
  {
    hide Rejected, RowCandidates;
    LastStandingConcat(rows, Candidates(rows, n - 1), RowCandidates(rows, rows[n - 1]));
    LastStandingIs(rows, RowCandidates(rows, rows[n - 1]));
    if LastStanding(rows, RowCandidates(rows, rows[n - 1])).None? {
      LastInManifestOrder(rows, n - 1);
    }
  }

  lemma {:induction false} LastStandingConcat(rows: seq<Row>, a: seq<Accepted>, b: seq<Accepted>)
    ensures LastStanding(rows, a + b) == if LastStanding(rows, b).Some? then LastStanding(rows, b) else LastStanding(rows, a)
  {
    hide Rejected;
    if b == [] {
      assert a + b == a;
    } else {
      assert (a + b)[..|a + b| - 1] == a + b[..|b| - 1];
      LastStandingConcat(rows, a, b[..|b| - 1]);
    }
  }

  // ------------------------------------------------------------ what a row adds, exactly

  lemma {:induction false} ReviewCandidatesAre(rows: seq<Row>, row: Row, reviewed: seq<Commit>)
    requires Recorded(rows, ByName(rows), reviewed)
    ensures forall c :: c in ReviewCandidates(rows, row, reviewed) <==>
      exists k <- reviewed ::
        c == Accepted(c.commit, row.task, k.task) && k.commit == Some(c.commit) && Sealed(rows[ByName(rows)[k.task]], k.commit)
  {
    if reviewed != [] {
      hide Sealed;
      var init, k := reviewed[..|reviewed| - 1], reviewed[|reviewed| - 1];
      assert reviewed == init + [k];
      ReviewCandidatesAre(rows, row, init);
      ByNameIs(rows);
      SealedSome(rows[ByName(rows)[k.task]], k.commit);
    }
  }

  lemma SealedSome(row: Row, c: Option<Id>)
    ensures Sealed(row, c) ==> c.Some?
  {
  }

  lemma {:induction false} ReviewCandidatesConcat(rows: seq<Row>, row: Row, a: seq<Commit>, b: seq<Commit>)
    requires Recorded(rows, ByName(rows), a) && Recorded(rows, ByName(rows), b)
    ensures Recorded(rows, ByName(rows), a + b)
    ensures ReviewCandidates(rows, row, a + b) == ReviewCandidates(rows, row, a) + ReviewCandidates(rows, row, b)
  {
    hide Sealed;
    if b == [] {
      assert a + b == a;
    } else {
      assert (a + b)[..|a + b| - 1] == a + b[..|b| - 1];
      ReviewCandidatesConcat(rows, row, a, b[..|b| - 1]);
    }
  }

  ghost predicate AllRejected(rows: seq<Row>, candidates: seq<Accepted>) {
    forall c <- candidates :: Rejected(rows, c.commit)
  }

  /** The candidates one input of a reviewer brings. */
  ghost function InputCandidates(rows: seq<Row>, row: Row, input: Input): seq<Accepted>
    requires Indexed(rows, ByName(rows)) && OwnNames(rows)
  {
    ReviewedAreRecorded(rows, [input]);
    assert ReviewedBy(rows, ByName(rows), [input]) == Supplied(rows, ByName(rows), input);
    ReviewCandidates(rows, row, Supplied(rows, ByName(rows), input))
  }

  ghost function InputsCandidates(rows: seq<Row>, row: Row, inputs: seq<Input>): seq<Accepted>
    requires Indexed(rows, ByName(rows)) && OwnNames(rows)
  {
    ReviewedAreRecorded(rows, inputs);
    ReviewCandidates(rows, row, ReviewedBy(rows, ByName(rows), inputs))
  }

  lemma InputsConcat(rows: seq<Row>, row: Row, inputs: seq<Input>)
    requires Indexed(rows, ByName(rows)) && OwnNames(rows) && inputs != []
    ensures InputsCandidates(rows, row, inputs)
      == InputCandidates(rows, row, inputs[0]) + InputsCandidates(rows, row, inputs[1..])
  {
    hide ReviewCandidates, Supplied, ByName;
    ReviewedAreRecorded(rows, inputs[1..]);
    ReviewedAreRecorded(rows, [inputs[0]]);
    assert ReviewedBy(rows, ByName(rows), [inputs[0]]) == Supplied(rows, ByName(rows), inputs[0]);
    ReviewCandidatesConcat(rows, row, Supplied(rows, ByName(rows), inputs[0]), ReviewedBy(rows, ByName(rows), inputs[1..]));
  }

  /** Among a reviewer's inputs the last one with a standing candidate decides. */
  lemma {:induction false} LastInputDecides(rows: seq<Row>, row: Row, inputs: seq<Input>) returns (a: nat)
    requires Indexed(rows, ByName(rows)) && OwnNames(rows)
    ensures
      var last := LastStanding(rows, InputsCandidates(rows, row, inputs));
      && a <= |inputs| && (last.None? <==> a == |inputs|)
      && (last.Some? ==> last.value in InputCandidates(rows, row, inputs[a]))
    ensures forall b | 0 <= b < |inputs| && (a == |inputs| || a < b) ::
      AllRejected(rows, InputCandidates(rows, row, inputs[b]))
  {
    if inputs == [] {
      assert InputsCandidates(rows, row, inputs) == [];
      return 0;
    }
    InputsConcat(rows, row, inputs);
    hide Rejected, InputCandidates, InputsCandidates, OwnNames, Indexed;
    var first, rest := InputCandidates(rows, row, inputs[0]), InputsCandidates(rows, row, inputs[1..]);
    LastStandingConcat(rows, first, rest);
    LastStandingIs(rows, first);
    var b := LastInputDecides(rows, row, inputs[1..]);
    assert forall i | 0 < i < |inputs| :: inputs[i] == inputs[1..][i - 1];
    a := if b < |inputs| - 1 then b + 1 else if LastStanding(rows, first).Some? then 0 else |inputs|;
  }

  /** The last row of the input's producer records `c` under one of the names the input gives. */
  ghost predicate RowSupplies(rows: seq<Row>, input: Input, c: Id, p: nat) {
    IsRowOf(rows, input.producer, p) && exists k <- rows[p].commits :: k.name in input.names && k.commit == Some(c)
  }

  /** And that row's own gate seals it. */
  ghost predicate RowOffers(rows: seq<Row>, input: Input, c: Id, p: nat) {
    RowSupplies(rows, input, c, p) && Sealed(rows[p], Some(c))
  }

  lemma InputCandidatesAre(rows: seq<Row>, row: Row, input: Input)
    requires Indexed(rows, ByName(rows)) && OwnNames(rows)
    ensures forall x :: x in InputCandidates(rows, row, input) <==>
      && x == Accepted(x.commit, row.task, input.producer)
      && exists p: nat :: RowOffers(rows, input, x.commit, p)
  {
    hide Sealed;
    InputConsumes(rows, input);
    ReviewedAreRecorded(rows, [input]);
    var byName := ByName(rows);
    var supplied := Supplied(rows, byName, input);
    assert ReviewedBy(rows, byName, [input]) == supplied;
    ReviewCandidatesAre(rows, row, supplied);
    ByNameIs(rows);
    forall k <- supplied ensures k.task == input.producer && IsRowOf(rows, input.producer, byName[k.task]) {
      var p: nat :| IsRowOf(rows, input.producer, p) && k in rows[p].commits && k.name in input.names;
      assert rows[p] in rows;
    }
    hide ReviewCandidates, Supplied, ByName;
    forall x | x in InputCandidates(rows, row, input)
      ensures exists p: nat :: RowOffers(rows, input, x.commit, p)
    {
      var k :| k in supplied && x == Accepted(x.commit, row.task, k.task) && k.commit == Some(x.commit)
        && Sealed(rows[byName[k.task]], k.commit);
      assert RowOffers(rows, input, x.commit, byName[k.task]);
    }
    forall x: Accepted, p: nat | x == Accepted(x.commit, row.task, input.producer) && RowOffers(rows, input, x.commit, p)
      ensures x in InputCandidates(rows, row, input)
    {
      var k :| k in rows[p].commits && k.name in input.names && k.commit == Some(x.commit);
      assert Consumes(rows, input, k);
    }
  }

  /** A row linked to what its inputs consume. */
  ghost predicate LinkedTo(rows: seq<Row>, row: Row, inputs: seq<Input>)
    requires Indexed(rows, ByName(rows))
  {
    row.reviewed == if row.verdict.Some? then ReviewedBy(rows, ByName(rows), inputs) else []
  }

  /** Within one row the last input that still stands decides, and its own gate only when none does. */
  lemma LastOfRow(rows: seq<Row>, row: Row, inputs: seq<Input>) returns (x: nat)
    requires Indexed(rows, ByName(rows)) && OwnNames(rows) && LinkedTo(rows, row, inputs)
    requires Recorded(rows, ByName(rows), row.reviewed)
    ensures
      var last := LastStanding(rows, RowCandidates(rows, row));
      var accepts := row.verdict == Some(Accept) && row.succeeded;
      && x <= |inputs| && (x < |inputs| ==> accepts && last.Some? && last.value in InputCandidates(rows, row, inputs[x]))
      && (x == |inputs| && last.Some? ==> last.value in OwnCandidates(row, row.commits))
      && (last.None? ==> x == |inputs| && AllRejected(rows, OwnCandidates(row, row.commits)))
      && (accepts ==> forall y | 0 <= y < |inputs| && (x == |inputs| || x < y) ::
            AllRejected(rows, InputCandidates(rows, row, inputs[y])))
  {
    hide Rejected, OwnCandidates, ReviewCandidates, InputCandidates, ByName, ReviewedBy, Recorded, OwnNames;
    var own := OwnCandidates(row, row.commits);
    LastStandingIs(rows, own);
    if row.verdict == Some(Accept) && row.succeeded {
      var reviews := InputsCandidates(rows, row, inputs);
      assert RowCandidates(rows, row) == own + reviews;
      LastStandingConcat(rows, own, reviews);
      x := LastInputDecides(rows, row, inputs);
    } else {
      assert RowCandidates(rows, row) == own + [] == own;
      x := |inputs|;
    }
  }

  // ---------------------------------------------------------------- how it is decided

  method CollectOwn(row: Row) returns (candidates: seq<Accepted>)
    ensures candidates == OwnCandidates(row, row.commits)
  {
    candidates := [];
    for j := 0 to |row.commits|
      invariant candidates == OwnCandidates(row, row.commits[..j])
    {
      assert row.commits[..j + 1][..j] == row.commits[..j];
      if Sealed(row, row.commits[j].commit) {
        candidates := candidates + [Accepted(row.commits[j].commit.value, row.task, row.task)];
      }
    }
    assert row.commits[..|row.commits|] == row.commits;
  }

  method CollectReviews(rows: seq<Row>, row: Row) returns (candidates: seq<Accepted>)
    requires Recorded(rows, ByName(rows), row.reviewed)
    ensures candidates == ReviewCandidates(rows, row, row.reviewed)
  {
    candidates := [];
    for j := 0 to |row.reviewed|
      invariant candidates == ReviewCandidates(rows, row, row.reviewed[..j])
    {
      assert row.reviewed[..j + 1][..j] == row.reviewed[..j];
      var commit := row.reviewed[j];
      var producer := rows[ByName(rows)[commit.task]];
      if Sealed(producer, commit.commit) {
        candidates := candidates + [Accepted(commit.commit.value, row.task, producer.task)];
      }
    }
    assert row.reviewed[..|row.reviewed|] == row.reviewed;
  }

  /** Appends each candidate of the run in manifest order. */
  method CollectCandidates(rows: seq<Row>) returns (candidates: seq<Accepted>)
    requires Linked(rows)
    ensures candidates == Candidates(rows, |rows|)
  {
    hide OwnCandidates, ReviewCandidates, Recorded, ByName;
    candidates := [];
    for i := 0 to |rows|
      invariant candidates == Candidates(rows, i)
    {
      var row := rows[i];
      var own := CollectOwn(row);
      var reviews: seq<Accepted> := [];
      if row.verdict == Some(Accept) && row.succeeded {
        reviews := CollectReviews(rows, row);
      }
      candidates := candidates + (own + reviews);
    }
  }

  method RejectedCommits(rows: seq<Row>) returns (rejected: set<Id>)
    ensures forall c :: c in rejected <==> Rejected(rows, c)
  {
    rejected := {};
    for i := 0 to |rows|
      invariant forall c :: c in rejected <==> Rejected(rows[..i], c)
    {
      assert rows[..i + 1] == rows[..i] + [rows[i]];
      if rows[i].verdict == Some(ChangesRequested) {
        ghost var before := rejected;
        for j := 0 to |rows[i].reviewed|
          invariant forall c :: c in rejected <==> c in before || exists k <- rows[i].reviewed[..j] :: k.commit == Some(c)
        {
          var k := rows[i].reviewed[j];
          assert rows[i].reviewed[..j + 1] == rows[i].reviewed[..j] + [k];
          if k.commit.Some? {
            rejected := rejected + {k.commit.value};
          }
        }
        assert rows[i].reviewed[..|rows[i].reviewed|] == rows[i].reviewed;
      }
    }
    assert rows[..|rows|] == rows;
  }

  method CampaignAcceptance(rows: seq<Row>) returns (accepted: Option<Accepted>)
    requires Linked(rows)
    ensures accepted == AcceptanceOf(rows)
  {
    hide Rejected, Candidates, Linked;
    var rejected := RejectedCommits(rows);
    var candidates := CollectCandidates(rows);
    var i := |candidates|;
    assert candidates[..i] == candidates;
    while i > 0
      invariant 0 <= i <= |candidates|
      invariant LastStanding(rows, candidates) == LastStanding(rows, candidates[..i])
    {
      i := i - 1;
      assert candidates[..i + 1][..i] == candidates[..i];
      if candidates[i].commit !in rejected {
        return Some(candidates[i]);
      }
    }
    accepted := None;
  }
}
