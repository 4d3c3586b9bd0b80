/** Fix campaigns that follow one another from a root review, and the rounds they may spend. */
module FixLineage {
  import opened Basics

  datatype Verdict = Accept | ChangesRequested | OtherVerdict

  /** One review that led to a further fix. */
  datatype Entry = Entry(named: bool, verdict: Verdict, blockingFindings: int)

  datatype Lineage = Lineage(roundLimit: int, usedBefore: int, declared: int, history: seq<Entry>)

  /** What the run under review recorded: its fix tasks and its intermediate review, when it declared two rounds. */
  datatype Facts = Facts(fix1: bool, fix2: bool, review2: bool, intermediate: Option<Verdict>)

  const DEFAULT_LIMIT := 4
  const CEILING := 8

  /** What reading a lineage document insists on. */
  predicate Validates(l: Lineage) {
    && |l.history| <= CEILING
    && (forall e <- l.history :: e.named && e.verdict in {Accept, ChangesRequested} && e.blockingFindings >= 0)
    && 1 <= l.roundLimit <= CEILING
    && 0 <= l.usedBefore <= CEILING
    && 1 <= l.declared <= 2
    && l.usedBefore + l.declared <= l.roundLimit
  }

  /** The rounds a fix declares: at most two, never past the limit; `None` when none remain. */
  function FixRounds(used: int, limit: int): (rounds: Option<int>)
    ensures rounds.Some? <==> used < limit
    ensures rounds.Some? ==> 1 <= rounds.value <= 2 && used + rounds.value <= limit
    ensures rounds.Some? ==> rounds.value == 2 || used + rounds.value == limit
  {
    var remaining := limit - used;
    if remaining <= 0 then None else if remaining > 2 then Some(2) else Some(remaining)
  }

  /** The rounds a run spent beyond those before it; `None` when its records do not bear its lineage out. */
  function Spent(l: Lineage, facts: Facts): Option<int> {
    if !facts.fix1 then None
    else if l.declared != 2 then Some(1)
    else if !facts.fix2 || !facts.review2 || facts.intermediate.None? then None
    else
      match facts.intermediate.value
      case Accept => Some(1)
      case ChangesRequested => Some(2)
      case OtherVerdict => None
  }

  /** The review being fixed: it asked for changes, names what it reviewed, and counts its findings. */
  predicate Fixable(review: Entry) {
    review.named && review.verdict == ChangesRequested && review.blockingFindings >= 0
  }

  /** A limit the command line accepts; zero leaves the lineage's own in force. */
  predicate Allowed(override: int) {
    0 <= override <= CEILING
  }

  /** The lineage of the next fix, or `None` when it is refused; `found` is that of the run under review. */
  function Successor(found: Option<Lineage>, facts: Facts, review: Entry, override: int): Option<Lineage> {
    if found.Some? && (!Validates(found.value) || Spent(found.value, facts).None?) then None
    else
      var used := if found.Some? then found.value.usedBefore + Spent(found.value, facts).value else 0;
      var limit := if override != 0 then override else if found.Some? then found.value.roundLimit else DEFAULT_LIMIT;
      var history := if found.Some? then found.value.history + [review] else [];
      var rounds := FixRounds(used, limit);
      if rounds.None? then None else Some(Lineage(limit, used, rounds.value, history))
  }

  /** A lineage document is refused exactly for a counter out of its range, or an entry that is not a proper review. */
  lemma RefusedExact(l: Lineage)
    ensures !Validates(l) <==>
      || l.roundLimit < 1 || l.roundLimit > 8 || l.usedBefore < 0 || l.usedBefore > 8 || l.declared < 1 || l.declared > 2
      || l.usedBefore + l.declared > l.roundLimit || |l.history| > 8
      || exists e <- l.history :: !e.named || e.verdict == OtherVerdict || e.blockingFindings < 0
  {
  }

  /** The second declared round was run and reviewed. */
  ghost predicate Reviewed(facts: Facts, verdict: Verdict) {
    facts.fix1 && facts.fix2 && facts.review2 && facts.intermediate == Some(verdict)
  }

  /** Two rounds are spent exactly when two were declared and the review between them asked for changes. */
  lemma SpentExact(l: Lineage, facts: Facts)
    ensures Spent(l, facts) == Some(2) <==> l.declared == 2 && Reviewed(facts, ChangesRequested)
    ensures Spent(l, facts) == Some(1) <==>
      if l.declared == 2 then Reviewed(facts, Accept) else facts.fix1
    ensures Spent(l, facts) in {None, Some(1), Some(2)}
  {
  }

  /**
   What the next fix is: refused exactly when the lineage found does not validate,
   is not borne out, or leaves no round under the limit in force; else it starts
   from the rounds spent, under that limit, declares two rounds or the one left,
   and remembers the review it fixes unless that is the root.
   */
  lemma SuccessorExact(found: Option<Lineage>, facts: Facts, review: Entry, override: int)
    ensures
      var next := Successor(found, facts, review, override);
      var limit := if override != 0 then override else if found.Some? then found.value.roundLimit else 4;
      match found
      case None =>
        && (next.Some? <==> limit > 0)
        && (next.Some? ==> next.value == Lineage(limit, 0, if limit == 1 then 1 else 2, []))
      case Some(l) =>
        var used := l.usedBefore + if l.declared == 2 && Reviewed(facts, ChangesRequested) then 2 else 1;
        && (next.Some? <==> Validates(l) && Spent(l, facts).Some? && used < limit)
        && (next.Some? ==> next.value == Lineage(limit, used, if used + 1 == limit then 1 else 2, l.history + [review]))
  {
    if found.Some? {
      SpentExact(found.value, facts);
    }
    hide Validates, Spent;
  }

  /** Resolves the next fix step by step, as the command does. */
  method Resolve(found: Option<Lineage>, facts: Facts, review: Entry, override: int) returns (next: Option<Lineage>)
    ensures next == Successor(found, facts, review, override)
  {
    var lineage := Lineage(DEFAULT_LIMIT, 0, 0, []);
    var used := 0;
    if found.Some? {
      lineage := found.value;
      if !Validates(lineage) {
        return None;
      }
      used := lineage.usedBefore;
      if !facts.fix1 {
        return None;
      }
      used := used + 1;
      if lineage.declared == 2 {
        if !facts.fix2 || !facts.review2 || facts.intermediate.None? {
          return None;
        }
        match facts.intermediate.value {
          case Accept =>
          case ChangesRequested => used := used + 1;
          case OtherVerdict => return None;
        }
      }
      lineage := lineage.(history := lineage.history + [review]);
    }
    var limit := lineage.roundLimit;
    if override != 0 {
      limit := override;
    }
    var rounds := FixRounds(used, limit);
    if rounds.None? {
      return None;
    }
    next := Some(lineage.(roundLimit := limit, usedBefore := used, declared := rounds.value));
  }

  // ---------------------------------------------------------------------- whole chains

  /** What decided each fix of a chain. */
  datatype Choice = Choice(facts: Facts, review: Entry, override: int)

  ghost predicate Follows(found: Option<Lineage>, choice: Choice, next: Lineage) {
    && Fixable(choice.review) && Allowed(choice.override)
    && Successor(found, choice.facts, choice.review, choice.override) == Some(next)
  }

  function Previous(chain: seq<Lineage>, i: nat): Option<Lineage>
    requires i <= |chain|
  {
    if i == 0 then None else Some(chain[i - 1])
  }

  /** Fixes that follow one another from a root review, which itself carries no lineage. */
  ghost predicate IsChain(chain: seq<Lineage>, choices: seq<Choice>) {
    |chain| == |choices| && forall i | 0 <= i < |chain| :: Follows(Previous(chain, i), choices[i], chain[i])
  }

  /** One fix: what it writes validates, and it spends at least one of the rounds declared before it, within their limit. */
  lemma FixIsValid(found: Option<Lineage>, choice: Choice, next: Lineage)
    requires Follows(found, choice, next)
    ensures found.Some? && |found.value.history| < CEILING ==> Validates(next)
    ensures found.None? ==> Validates(next) && next.usedBefore == 0 && next.history == []
    ensures next.usedBefore < next.roundLimit
    ensures found.Some? ==>
      && |next.history| == |found.value.history| + 1
      && found.value.usedBefore < next.usedBefore <= found.value.usedBefore + found.value.declared <= found.value.roundLimit
    ensures choice.override == 0 ==>
      next.roundLimit == if found.Some? then found.value.roundLimit else DEFAULT_LIMIT
  {
  }

  lemma {:induction false} ChainIsValid(chain: seq<Lineage>, choices: seq<Choice>, i: nat)
    requires IsChain(chain, choices) && i < |chain|
    ensures Validates(chain[i]) && |chain[i].history| == i <= chain[i].usedBefore < chain[i].roundLimit
  {
    hide Follows;
    if i > 0 {
      ChainIsValid(chain, choices, i - 1);
    }
    assert Follows(Previous(chain, i), choices[i], chain[i]);
    FixIsValid(Previous(chain, i), choices[i], chain[i]);
  }

  /**
   Every lineage a chain of fixes writes passes the next step's validator, rounds
   used strictly increase without passing the limit the fix before declared them
   under, and the history never outgrows the rounds used. So whatever limits are
   given on the way, along any chain from a root review there are at most eight
   fix campaigns, and no more than the limit in force at the last.
   */
  lemma ChainIsBounded(chain: seq<Lineage>, choices: seq<Choice>)
    requires IsChain(chain, choices)
    ensures forall i | 0 <= i < |chain| :: Validates(chain[i]) && |chain[i].history| <= chain[i].usedBefore < CEILING
    ensures forall i | 0 <= i < |chain| - 1 ::
      chain[i].usedBefore < chain[i + 1].usedBefore <= chain[i].usedBefore + chain[i].declared <= chain[i].roundLimit
    ensures |chain| <= CEILING
    ensures chain != [] ==> |chain| <= chain[|chain| - 1].roundLimit
  {
    hide Follows;
    forall i | 0 <= i < |chain|
      ensures Validates(chain[i]) && |chain[i].history| <= chain[i].usedBefore < CEILING
    {
      ChainIsValid(chain, choices, i);
    }
    forall i | 0 <= i < |chain| - 1
      ensures chain[i].usedBefore < chain[i + 1].usedBefore <= chain[i].usedBefore + chain[i].declared <= chain[i].roundLimit
    {
      assert Follows(Previous(chain, i + 1), choices[i + 1], chain[i + 1]);
      FixIsValid(Previous(chain, i + 1), choices[i + 1], chain[i + 1]);
    }
    if chain != [] {
      ChainIsValid(chain, choices, |chain| - 1);
    }
  }

  lemma {:induction false} LimitStays(chain: seq<Lineage>, choices: seq<Choice>, i: nat)
    requires IsChain(chain, choices) && i < |chain| && forall c <- choices :: c.override == 0
    ensures chain[i].roundLimit == DEFAULT_LIMIT
  {
    hide Follows;
    if i > 0 {
      LimitStays(chain, choices, i - 1);
    }
    assert Follows(Previous(chain, i), choices[i], chain[i]);
    FixIsValid(Previous(chain, i), choices[i], chain[i]);
  }

  /** A chain whose limit is never overridden ends after at most four fix campaigns. */
  lemma DefaultChainIsBounded(chain: seq<Lineage>, choices: seq<Choice>)
    requires IsChain(chain, choices) && forall c <- choices :: c.override == 0
    ensures |chain| <= DEFAULT_LIMIT
  {
    ChainIsBounded(chain, choices);
    if chain != [] {
      LimitStays(chain, choices, |chain| - 1);
    }
  }

  lemma ChainGrows(chain: seq<Lineage>, choices: seq<Choice>, choice: Choice, next: Lineage)
    requires IsChain(chain, choices) && Follows(Previous(chain, |chain|), choice, next)
    ensures IsChain(chain + [next], choices + [choice])
  {
    hide Follows;
    forall i | 0 <= i <= |chain| ensures Follows(Previous(chain + [next], i), (choices + [choice])[i], (chain + [next])[i]) {
      assert Previous(chain + [next], i) == Previous(chain, i);
    }
  }

  /** The `i`th lineage when every fix before it spent one round under this limit. */
  function OneRoundEach(i: nat, limit: int, review: Entry): Lineage {
    Lineage(limit, i, if i + 1 == limit then 1 else 2, seq(i, _ => review))
  }

  lemma OneRoundFollows(i: nat, limit: int, override: int, review: Entry)
    requires i < limit <= CEILING && Fixable(review)
    requires override == limit || (override == 0 && limit == DEFAULT_LIMIT)
    ensures Follows(if i == 0 then None else Some(OneRoundEach(i - 1, limit, review)),
                    Choice(Facts(true, true, true, Some(Accept)), review, override), OneRoundEach(i, limit, review))
  {
    if i == 0 {
      assert OneRoundEach(0, limit, review).history == [];
    } else {
      assert OneRoundEach(i - 1, limit, review).history + [review] == OneRoundEach(i, limit, review).history;
    }
  }

  /**
   Every limit is reached, four by default and eight at most: fixes that each
   spend one round under it, even of reviews without a finding, form a chain of
   that length.
   */
  lemma LimitIsReached(limit: int, override: int) returns (chain: seq<Lineage>, choices: seq<Choice>)
    requires 1 <= limit <= 8 && (override == limit || (override == 0 && limit == 4))
    ensures IsChain(chain, choices) && |chain| == limit && forall c <- choices :: c.override == override
  {
    hide OneRoundEach, IsChain, Follows;
    var review := Entry(true, ChangesRequested, 0);
    var choice := Choice(Facts(true, true, true, Some(Accept)), review, override);
    chain, choices := [], [];
    assert IsChain(chain, choices) by { EmptyChain(); }
    while |chain| < limit
      invariant IsChain(chain, choices) && |chain| <= limit && forall c <- choices :: c.override == override
      invariant chain != [] ==> chain[|chain| - 1] == OneRoundEach(|chain| - 1, limit, review)
    {
      OneRoundFollows(|chain|, limit, override, review);
      ChainGrows(chain, choices, choice, OneRoundEach(|chain|, limit, review));
      chain, choices := chain + [OneRoundEach(|chain|, limit, review)], choices + [choice];
    }
  }

  lemma EmptyChain()
    ensures IsChain([], [])
  {
  }
}
