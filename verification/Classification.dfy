/** `decode_classification`: a response in any order, decoded to one verdict per offered
    candidate in registered order. */
module Classification {
  import opened Common
  import opened Evidence
  import opened Decimals

  /** One item of the parsed response. */
  datatype Row = Row(locator: string, verdict: string)

  datatype DecodeError =
    | BadCandidateIds
    | WrongCardinality
    | UnknownLocator(index: nat)
    | DuplicateLocator(index: nat)
    | InvalidVerdict(index: nat)
    | NotCovered

  datatype Counts = Counts(expected: nat, returned: nat, keep: nat, abstain: nat, outOfOrder: nat)

  datatype Decoded = Decoded(items: seq<Decision>, counts: Counts)

  const MAX_BATCH := 99

  /** `f"c{index:02d}"`. */
  function Locator(index: nat): string
    requires index <= MAX_BATCH
  {
    ['c', Digit(index / 10), Digit(index % 10)]
  }

  function ValidIds(ids: seq<string>): bool {
    ids != [] && |ids| <= MAX_BATCH && "" !in ids && Distinct(ids)
  }

  function Locators(n: nat): (r: seq<string>)
    requires n <= MAX_BATCH
    ensures |r| == n
  {
    seq(n, i requires 0 <= i < n => Locator(i + 1))
  }

  /** `batch_locators`. */
  function BatchLocators(ids: seq<string>): Result<seq<string>, DecodeError> {
    if ValidIds(ids) then Ok(Locators(|ids|)) else Refused(BadCandidateIds)
  }

  /** The locators are numbered from 1, in two digits behind a `c`. */
  lemma LocatorsNumbered(n: nat, i: nat)
    requires i < n <= MAX_BATCH
    ensures var l := Locators(n)[i];
            && |l| == 3 && l[0] == 'c' && '0' <= l[1] <= '9' && '0' <= l[2] <= '9'
            && 10 * (l[1] as int - '0' as int) + (l[2] as int - '0' as int) == i + 1
  {
  }

  lemma LocatorsDistinct(n: nat)
    requires n <= MAX_BATCH
    ensures Distinct(Locators(n))
  {
    forall i, j | 0 <= i < j < n ensures Locators(n)[i] != Locators(n)[j] {
    }
  }

  // ---- What a response means, as a function ----

  predicate IsVerdict(verdict: string) {
    verdict == "KEEP" || verdict == "ABSTAIN"
  }

  function VerdictOf(verdict: string): Verdict {
    if verdict == "KEEP" then KEEP else ABSTAIN
  }

  /** The first thing wrong with the rows from `i` on. */
  function FirstFault(rows: seq<Row>, locators: seq<string>, i: nat): Option<DecodeError>
    requires i <= |rows|
    decreases |rows| - i
  {
    if i == |rows| then None
    else if rows[i].locator !in locators then Some(UnknownLocator(i))
    else if exists j | 0 <= j < i :: rows[j].locator == rows[i].locator then Some(DuplicateLocator(i))
    else if !IsVerdict(rows[i].verdict) then Some(InvalidVerdict(i))
    else FirstFault(rows, locators, i + 1)
  }

  /** The verdict of the row that names a locator. */
  function VerdictFor(rows: seq<Row>, locator: string): Verdict {
    if rows == [] then ABSTAIN
    else if rows[0].locator == locator then VerdictOf(rows[0].verdict)
    else VerdictFor(rows[1..], locator)
  }

  function Canonical(rows: seq<Row>, ids: seq<string>, locators: seq<string>): (items: seq<Decision>)
    requires |ids| == |locators|
    ensures |items| == |ids|
  {
    seq(|ids|, k requires 0 <= k < |ids| => Decision(ids[k], VerdictFor(rows, locators[k])))
  }

  /** Response positions that do not hold the locator registered there. */
  function Displaced(rows: seq<Row>, locators: seq<string>, upto: nat): set<nat>
    requires upto <= |rows| == |locators|
  {
    set i: nat | i < upto && rows[i].locator != locators[i]
  }

  function DecodeWith(rows: seq<Row>, ids: seq<string>, locators: seq<string>): Result<Decoded, DecodeError>
    requires |ids| == |locators|
  {
    if |rows| != |ids| then Refused(WrongCardinality)
    else
      var fault := FirstFault(rows, locators, 0);
      if fault.Some? then Refused(fault.value)
      else
        var items := Canonical(rows, ids, locators);
        Ok(Decoded(items, Counts(|ids|, |items|, Tally(items, KEEP), Tally(items, ABSTAIN),
                                 |Displaced(rows, locators, |rows|)|)))
  }

  function Decode(rows: seq<Row>, ids: seq<string>): Result<Decoded, DecodeError> {
    var offered := BatchLocators(ids);
    if offered.Refused? then Refused(offered.error) else DecodeWith(rows, ids, offered.value)
  }

  // ---- Acceptance is being a permutation ----

  /** Every row names an offered locator with one of the two words, and no locator is named twice. */
  ghost predicate Permutes(rows: seq<Row>, locators: seq<string>) {
    && |rows| == |locators|
    && (forall i | 0 <= i < |rows| ::
          rows[i].locator in locators && (rows[i].verdict == "KEEP" || rows[i].verdict == "ABSTAIN"))
    && (forall i, j | 0 <= i < j < |rows| :: rows[i].locator != rows[j].locator)
  }

  lemma {:induction false} FaultFree(rows: seq<Row>, locators: seq<string>, i: nat)
    requires i <= |rows|
    ensures FirstFault(rows, locators, i).None? <==>
      forall k | i <= k < |rows| :: rows[k].locator in locators && IsVerdict(rows[k].verdict)
        && forall j | 0 <= j < k :: rows[j].locator != rows[k].locator
    decreases |rows| - i
  {
    if i < |rows| { FaultFree(rows, locators, i + 1); }
  }

  /** Nothing is wrong with the row: its locator is offered and not named before, its verdict one of
      the two words. */
  ghost predicate Clean(rows: seq<Row>, locators: seq<string>, k: nat)
    requires k < |rows|
  {
    && rows[k].locator in locators && (forall j | 0 <= j < k :: rows[j].locator != rows[k].locator)
    && (rows[k].verdict == "KEEP" || rows[k].verdict == "ABSTAIN")
  }

  /** The row a fault is about, and what it says of it. */
  ghost predicate FaultAt(rows: seq<Row>, locators: seq<string>, e: DecodeError, i: nat)
    requires i < |rows|
  {
    && !Clean(rows, locators, i)
    && e == if rows[i].locator !in locators then UnknownLocator(i)
            else if exists j :: 0 <= j < i && rows[j].locator == rows[i].locator then DuplicateLocator(i)
            else InvalidVerdict(i)
  }

  /** The fault named is that of the first row that is not clean. */
  lemma {:induction false} FirstFaultNamed(rows: seq<Row>, locators: seq<string>, from: nat)
    requires from <= |rows|
    ensures var fault := FirstFault(rows, locators, from);
            if fault.None? then forall k | from <= k < |rows| :: Clean(rows, locators, k)
            else exists i :: from <= i < |rows| && FaultAt(rows, locators, fault.value, i)
                          && forall k | from <= k < i :: Clean(rows, locators, k)
    decreases |rows| - from
  {
    if from < |rows| {
      if Clean(rows, locators, from) {
        FirstFaultNamed(rows, locators, from + 1);
      } else {
        assert FaultAt(rows, locators, FirstFault(rows, locators, from).value, from);
      }
    }
  }

  lemma SameSize<T>(a: set<T>, b: set<T>)
    requires a <= b && |a| == |b|
    ensures a == b
  {
    assert |b - a| == |b| - |a|;
  }

  /** The pigeonhole: as many distinct names as locators name every locator. */
  lemma EveryLocatorNamed(rows: seq<Row>, locators: seq<string>)
    requires Permutes(rows, locators) && Distinct(locators)
    ensures forall l | l in locators :: exists i :: 0 <= i < |rows| && rows[i].locator == l
  {
    var named := seq(|rows|, i requires 0 <= i < |rows| => rows[i].locator);
    DistinctElements(named);
    DistinctElements(locators);
    assert Elements(named) <= Elements(locators);
    SameSize(Elements(named), Elements(locators));
    forall l | l in locators ensures exists i :: 0 <= i < |rows| && rows[i].locator == l {
      assert l in Elements(named);
      var i :| 0 <= i < |named| && named[i] == l;
    }
  }

  lemma {:induction false} VerdictFound(rows: seq<Row>, i: nat)
    requires i < |rows| && forall j | 0 <= j < i :: rows[j].locator != rows[i].locator
    ensures VerdictFor(rows, rows[i].locator) == VerdictOf(rows[i].verdict)
  {
    if i == 0 {
    } else {
      VerdictFound(rows[1..], i - 1);
    }
  }

  /** `items` keeps each candidate whose locator got the word KEEP and no other, in registered
      order. */
  ghost predicate Answers(rows: seq<Row>, ids: seq<string>, locators: seq<string>, items: seq<Decision>) {
    && |items| == |ids| == |locators|
    && (forall k | 0 <= k < |ids| :: items[k].id == ids[k])
    && (forall i, k | 0 <= i < |rows| && 0 <= k < |ids| && rows[i].locator == locators[k] ::
          (items[k].verdict == KEEP <==> rows[i].verdict == "KEEP"))
    && (forall l | l in locators :: exists i :: 0 <= i < |rows| && rows[i].locator == l)
  }

  /** Acceptance, both ways, and what is returned: registered order, each verdict the one given
      to its locator, wherever in the response it stood. */
  lemma AcceptsPermutations(rows: seq<Row>, ids: seq<string>, locators: seq<string>)
    requires |ids| == |locators| && Distinct(locators)
    ensures DecodeWith(rows, ids, locators).Ok? <==> Permutes(rows, locators)
    ensures DecodeWith(rows, ids, locators).Ok? ==>
      Answers(rows, ids, locators, DecodeWith(rows, ids, locators).value.items)
  {
    FaultFree(rows, locators, 0);
    if DecodeWith(rows, ids, locators).Ok? {
      EveryLocatorNamed(rows, locators);
      forall i | 0 <= i < |rows| ensures VerdictFor(rows, rows[i].locator) == VerdictOf(rows[i].verdict) {
        VerdictFound(rows, i);
      }
    }
  }

  /** The decoder accepts exactly the permutations of the offered locators. */
  lemma DecodesPermutations(rows: seq<Row>, ids: seq<string>)
    ensures Decode(rows, ids).Ok? <==>
      && 1 <= |ids| <= 99 && "" !in ids && Distinct(ids) && Permutes(rows, Locators(|ids|))
    ensures Decode(rows, ids).Ok? ==> Answers(rows, ids, Locators(|ids|), Decode(rows, ids).value.items)
  {
    if ValidIds(ids) {
      LocatorsDistinct(|ids|);
      AcceptsPermutations(rows, ids, Locators(|ids|));
    }
  }

  lemma TwoMembers(a: nat, b: nat, s: set<nat>)
    requires a in s && b in s && a != b
    ensures |s| >= 2
  {
    assert |s - {a}| == |s| - 1;
    assert b in s - {a};
  }

  /** A response is in order or at least two of its positions moved. */
  lemma NeverOneDisplaced(rows: seq<Row>, locators: seq<string>)
    requires Permutes(rows, locators) && Distinct(locators)
    ensures |Displaced(rows, locators, |rows|)| != 1
    ensures Displaced(rows, locators, |rows|) == {} <==> forall i | 0 <= i < |rows| :: rows[i].locator == locators[i]
  {
    var moved := Displaced(rows, locators, |rows|);
    assert forall i: nat | i < |rows| :: i in moved <==> rows[i].locator != locators[i];
    if moved != {} {
      var i :| i in moved;
      assert rows[i].locator in locators;
      var k: nat :| k < |locators| && rows[i].locator == locators[k];
      assert k != i && rows[k].locator != rows[i].locator;
      TwoMembers(i, k, moved);
    }
  }

  /** The reported displacement count, never 1. */
  lemma DisplacementCount(rows: seq<Row>, ids: seq<string>)
    requires Decode(rows, ids).Ok?
    ensures Decode(rows, ids).value.counts.outOfOrder == |Displaced(rows, Locators(|ids|), |rows|)| != 1
  {
    LocatorsDistinct(|ids|);
    AcceptsPermutations(rows, ids, Locators(|ids|));
    NeverOneDisplaced(rows, Locators(|ids|));
  }

  /** The counts of a decision: as many items as candidates, and how many of each verdict. */
  lemma DecodedCounts(rows: seq<Row>, ids: seq<string>)
    requires Decode(rows, ids).Ok?
    ensures var d := Decode(rows, ids).value;
            && d.counts.expected == d.counts.returned == |ids|
            && d.counts.keep == |Holding(d.items, KEEP)| && d.counts.abstain == |Holding(d.items, ABSTAIN)|
  {
    TallyCounts(Decode(rows, ids).value.items, KEEP);
    TallyCounts(Decode(rows, ids).value.items, ABSTAIN);
  }

  // ---- The imperative decoder ----

  /** `{locator: index ...}`. */
  ghost predicate IsPositions(position: map<string, nat>, locators: seq<string>) {
    && (forall l :: l in position <==> l in locators)
    && (forall k | 0 <= k < |locators| :: locators[k] in position && position[locators[k]] == k)
  }

  /** The loop over the response items. */
  method Scan(rows: seq<Row>, position: map<string, nat>, ghost locators: seq<string>)
    returns (fault: Option<DecodeError>)
    requires IsPositions(position, locators)
    ensures fault == FirstFault(rows, locators, 0)
  {
    var seen: set<string> := {};
    for index := 0 to |rows|
      invariant FirstFault(rows, locators, 0) == FirstFault(rows, locators, index)
      invariant forall l :: l in seen <==> exists j :: 0 <= j < index && rows[j].locator == l
    {
      var row := rows[index];
      if row.locator !in position {
        return Some(UnknownLocator(index));
      }
      if row.locator in seen {
        return Some(DuplicateLocator(index));
      }
      if row.verdict != "KEEP" && row.verdict != "ABSTAIN" {
        return Some(InvalidVerdict(index));
      }
      seen := seen + {row.locator};
    }
    fault := None;
  }

  method Positions(locators: seq<string>) returns (position: map<string, nat>)
    requires Distinct(locators)
    ensures IsPositions(position, locators)
  {
    position := map[];
    for k := 0 to |locators|
      invariant forall l :: l in position <==> l in locators[..k]
      invariant forall j | 0 <= j < k :: locators[j] in position && position[locators[j]] == j
    {
      position := position[locators[k] := k];
      assert locators[..k + 1] == locators[..k] + [locators[k]];
    }
    assert locators[..|locators|] == locators;
  }

  lemma DisplacedNext(rows: seq<Row>, locators: seq<string>, i: nat)
    requires i < |rows| == |locators|
    ensures |Displaced(rows, locators, i + 1)|
         == |Displaced(rows, locators, i)| + if rows[i].locator != locators[i] then 1 else 0
  {
    var before := Displaced(rows, locators, i);
    assert i !in before;
    assert Displaced(rows, locators, i + 1) == before + if rows[i].locator != locators[i] then {i} else {};
  }

  method CountDisplaced(rows: seq<Row>, position: map<string, nat>, ghost locators: seq<string>)
    returns (count: nat)
    requires IsPositions(position, locators) && Permutes(rows, locators)
    ensures count == |Displaced(rows, locators, |rows|)|
  {
    count := 0;
    for i := 0 to |rows|
      invariant count == |Displaced(rows, locators, i)|
    {
      DisplacedNext(rows, locators, i);
      if position[rows[i].locator] != i {
        count := count + 1;
      }
    }
  }

  method Count(items: seq<Decision>, verdict: Verdict) returns (count: nat)
    ensures count == Tally(items, verdict)
  {
    count := 0;
    for i := 0 to |items|
      invariant count == Tally(items[..i], verdict)
    {
      assert items[..i + 1][..i] == items[..i];
      if items[i].verdict == verdict {
        count := count + 1;
      }
    }
    assert items[..|items|] == items;
  }

  lemma NamedOnce(rows: seq<Row>, row: Row)
    requires row in rows && forall i, j | 0 <= i < j < |rows| :: rows[i].locator != rows[j].locator
    ensures VerdictFor(rows, row.locator) == VerdictOf(row.verdict)
  {
    var i :| 0 <= i < |rows| && rows[i] == row;
    VerdictFound(rows, i);
  }

  function PositionIn(position: map<string, nat>, row: Row): nat {
    if row.locator in position then position[row.locator] else 0
  }

  /** The same rows, in rising order of position. */
  ghost predicate ByPosition(rows: seq<Row>, sorted: seq<Row>, position: map<string, nat>) {
    && |sorted| == |rows| && Distinct(sorted) && (forall k | 0 <= k < |sorted| :: sorted[k] in rows)
    && forall a, b | 0 <= a < b < |sorted| :: PositionIn(position, sorted[a]) <= PositionIn(position, sorted[b])
  }

  lemma PlacesOf(rows: seq<Row>, sorted: seq<Row>, position: map<string, nat>, locators: seq<string>, places: seq<nat>)
    requires Permutes(rows, locators) && IsPositions(position, locators) && ByPosition(rows, sorted, position)
    requires |places| == |sorted| && forall k | 0 <= k < |places| :: places[k] == PositionIn(position, sorted[k])
    ensures forall k | 0 <= k < |places| :: places[k] < |locators| && locators[places[k]] == sorted[k].locator
    ensures forall a, b | 0 <= a < b < |places| :: places[a] < places[b]
  {
    forall k | 0 <= k < |places| ensures places[k] < |locators| && locators[places[k]] == sorted[k].locator {
      var i :| 0 <= i < |rows| && rows[i] == sorted[k];
    }
    forall a, b | 0 <= a < b < |places| ensures places[a] < places[b] {
    }
  }

  lemma {:induction false} RisesFrom(places: seq<nat>, k: nat)
    requires k < |places| && forall a, b | 0 <= a < b < |places| :: places[a] < places[b]
    ensures places[k] >= k
  {
    if k == 0 {
    } else {
      RisesFrom(places, k - 1);
    }
  }

  lemma {:induction false} FallsTo(places: seq<nat>, k: nat)
    requires k < |places| && forall a, b | 0 <= a < b < |places| :: places[a] < places[b]
    requires forall a | 0 <= a < |places| :: places[a] < |places|
    ensures places[k] <= k
    decreases |places| - k
  {
    if k + 1 < |places| { FallsTo(places, k + 1); }
  }

  /** n strictly rising numbers below n are 0, 1, ... */
  lemma StrictlyRising(places: seq<nat>)
    requires forall a, b | 0 <= a < b < |places| :: places[a] < places[b]
    requires forall a | 0 <= a < |places| :: places[a] < |places|
    ensures forall k | 0 <= k < |places| :: places[k] == k
  {
    forall k | 0 <= k < |places| ensures places[k] == k {
      RisesFrom(places, k);
      FallsTo(places, k);
    }
  }

  /** Sorting a permutation by position puts the k-th locator at k. */
  lemma SortedIsRegistered(rows: seq<Row>, sorted: seq<Row>, position: map<string, nat>, locators: seq<string>)
    requires Permutes(rows, locators) && Distinct(locators) && IsPositions(position, locators)
    requires ByPosition(rows, sorted, position)
    ensures |sorted| == |rows|
    ensures forall k | 0 <= k < |sorted| :: sorted[k].locator == locators[k] && sorted[k] in rows
  {
    var places := seq(|sorted|, k requires 0 <= k < |sorted| => PositionIn(position, sorted[k]));
    PlacesOf(rows, sorted, position, locators, places);
    StrictlyRising(places);
  }

  lemma RowsSorted(rows: seq<Row>, position: map<string, nat>)
    requires Distinct(rows)
    ensures ByPosition(rows, SortBy(rows, (a, b) => PositionIn(position, a) <= PositionIn(position, b)), position)
  {
    var leq := (a: Row, b: Row) => PositionIn(position, a) <= PositionIn(position, b);
    var sorted := SortBy(rows, leq);
    SortByDistinct(rows, leq);
    SortBySorted(rows, leq);
    forall k | 0 <= k < |sorted| ensures sorted[k] in rows {
      assert sorted[k] in Elements(sorted);
    }
    forall a, b | 0 <= a < b < |sorted| ensures PositionIn(position, sorted[a]) <= PositionIn(position, sorted[b]) {
      assert leq(sorted[a], sorted[b]);
    }
  }

  /** Sorts the rows by position and names the candidates. */
  method InRegisteredOrder(rows: seq<Row>, ids: seq<string>, position: map<string, nat>, ghost locators: seq<string>)
    returns (items: seq<Decision>)
    requires |ids| == |locators| && Distinct(locators) && Permutes(rows, locators) && IsPositions(position, locators)
    ensures items == Canonical(rows, ids, locators)
  {
    var sorted := SortBy(rows, (a, b) => PositionIn(position, a) <= PositionIn(position, b));
    RowsSorted(rows, position);
    SortedIsRegistered(rows, sorted, position, locators);
    items := [];
    for k := 0 to |sorted|
      invariant |items| == k
      invariant forall j | 0 <= j < k :: items[j] == Decision(ids[j], VerdictFor(rows, locators[j]))
    {
      assert position[locators[k]] == k;
      NamedOnce(rows, sorted[k]);
      items := items + [Decision(ids[position[sorted[k].locator]], VerdictOf(sorted[k].verdict))];
    }
  }

  method DecodeClassification(rows: seq<Row>, ids: seq<string>) returns (r: Result<Decoded, DecodeError>)
    ensures r == Decode(rows, ids)
  {
    var offered := BatchLocators(ids);
    if offered.Refused? {
      return Refused(offered.error);
    }
    var locators := offered.value;
    LocatorsDistinct(|ids|);
    if |rows| != |ids| {
      return Refused(WrongCardinality);
    }
    var position := Positions(locators);
    var fault := Scan(rows, position, locators);
    if fault.Some? {
      return Refused(fault.value);
    }
    FaultFree(rows, locators, 0);
    var outOfOrder := CountDisplaced(rows, position, locators);
    var items := InRegisteredOrder(rows, ids, position, locators);
    var keep := Count(items, KEEP);
    var abstain := Count(items, ABSTAIN);
    r := Ok(Decoded(items, Counts(|ids|, |items|, keep, abstain, outOfOrder)));
  }

  // ---- Assembling and decoding ----

  /** The items of `_assemble_contract_response`: `zip(locators, verdicts)`. */
  function Assemble(verdicts: seq<string>): (rows: seq<Row>)
    requires |verdicts| <= MAX_BATCH
    ensures |rows| == |verdicts|
  {
    seq(|verdicts|, i requires 0 <= i < |verdicts| => Row(Locator(i + 1), verdicts[i]))
  }

  /** One item for each candidate, kept exactly where the word is KEEP. */
  ghost predicate Spelled(words: seq<string>, ids: seq<string>, items: seq<Decision>) {
    && |items| == |ids| == |words|
    && forall k | 0 <= k < |ids| :: items[k].id == ids[k] && (items[k].verdict == KEEP <==> words[k] == "KEEP")
  }

  lemma AssembledDecodes(verdicts: seq<string>, ids: seq<string>, locators: seq<string>)
    requires |verdicts| == |ids| == |locators| && Distinct(locators) && forall v | v in verdicts :: IsVerdict(v)
    ensures var rows := seq(|ids|, i requires 0 <= i < |ids| => Row(locators[i], verdicts[i]));
            var r := DecodeWith(rows, ids, locators);
            && r.Ok? && r.value.counts.outOfOrder == 0
            && Spelled(verdicts, ids, r.value.items)
  {
    var rows := seq(|ids|, i requires 0 <= i < |ids| => Row(locators[i], verdicts[i]));
    forall i | 0 <= i < |rows| ensures rows[i].locator in locators && IsVerdict(rows[i].verdict) {
      assert verdicts[i] in verdicts;
    }
    AcceptsPermutations(rows, ids, locators);
    NeverOneDisplaced(rows, locators);
    var items := DecodeWith(rows, ids, locators).value.items;
    forall k | 0 <= k < |ids| ensures items[k].verdict == KEEP <==> verdicts[k] == "KEEP" {
      assert rows[k].locator == locators[k];
    }
  }

  /** Round trip: what was assembled decodes to the verdicts given, nothing moved. */
  lemma AssembleRoundTrip(verdicts: seq<string>, ids: seq<string>)
    requires ValidIds(ids) && |verdicts| == |ids| && forall v | v in verdicts :: IsVerdict(v)
    ensures var r := Decode(Assemble(verdicts), ids);
            && r.Ok? && r.value.counts.outOfOrder == 0
            && Spelled(verdicts, ids, r.value.items)
  {
    LocatorsDistinct(|ids|);
    AssembledDecodes(verdicts, ids, Locators(|ids|));
    assert Assemble(verdicts) == seq(|ids|, i requires 0 <= i < |ids| => Row(Locators(|ids|)[i], verdicts[i]));
  }

  /** How a verdict is spelled in a response. */
  function WordOf(verdict: Verdict): string {
    match verdict
    case KEEP => "KEEP"
    case ABSTAIN => "ABSTAIN"
  }

  /** Decisions spelled out, assembled and decoded are the decisions that were spelled. */
  lemma DecisionsRoundTrip(decisions: seq<Decision>)
    requires ValidIds(Each((d: Decision) => d.id, decisions))
    ensures var words := Each((d: Decision) => WordOf(d.verdict), decisions);
            var r := Decode(Assemble(words), Each((d: Decision) => d.id, decisions));
            r.Ok? && r.value.items == decisions
  {
    var words, ids := Each((d: Decision) => WordOf(d.verdict), decisions), Each((d: Decision) => d.id, decisions);
    AssembleRoundTrip(words, ids);
    var items := Decode(Assemble(words), ids).value.items;
    forall k | 0 <= k < |decisions| ensures items[k] == decisions[k] {
      assert items[k].verdict == KEEP <==> words[k] == "KEEP";
    }
  }
}
