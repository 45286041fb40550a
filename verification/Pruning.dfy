/** `prune_keeps`: the smallest gap, then the smallest stride, whose survivors fit the budget. */
module Pruning {
  import opened Common
  import opened Evidence
  import opened Coverage

  datatype PruneError = InvalidRow | DuplicateDecision | CoverageMismatch | EmptySegment | StrideExhausted {
    predicate AboutDecisions() {
      InvalidRow? || DuplicateDecision? || CoverageMismatch?
    }
  }

  datatype Fit = Fit(gap: int, stride: int)

  datatype Pruned = Pruned(decisions: nat, keep: nat, runs: nat, fitted: Option<Fit>, survivors: seq<Candidate>)

  // ---- What survives a collapse ----

  function Length(row: Candidate): int {
    row.anchorCharEnd - row.anchorCharStart
  }

  /** Python's `max` by length: the longest anchor, the earliest of equals. */
  function Longest(segment: seq<Candidate>): (k: nat)
    requires segment != []
    ensures k < |segment|
    ensures forall i | 0 <= i < |segment| ::
      segment[i].anchorCharEnd - segment[i].anchorCharStart <= segment[k].anchorCharEnd - segment[k].anchorCharStart
    ensures forall i | 0 <= i < k ::
      segment[i].anchorCharEnd - segment[i].anchorCharStart < segment[k].anchorCharEnd - segment[k].anchorCharStart
  {
    var n := |segment| - 1;
    if n == 0 then 0
    else
      var k := Longest(segment[..n]);
      assert forall i | 0 <= i < n :: segment[..n][i] == segment[i];
      if Length(segment[n]) > Length(segment[k]) then n else k
  }

  /** One survivor per greedy segment of the rows from `from` on. */
  function PicksFrom(run: seq<Candidate>, stride: int, from: nat): (r: seq<Candidate>)
    requires from <= |run|
    ensures |r| == SegmentCount(run, stride, from)
    decreases |run| - from
  {
    if from == |run| then []
    else
      var end := SegmentEnd(run, stride, from, from + 1);
      var segment := run[from..end];
      [segment[Longest(segment)]] + PicksFrom(run, stride, end)
  }

  function Picks(run: seq<Candidate>, stride: int): seq<Candidate> {
    PicksFrom(run, stride, 0)
  }

  function Survivors(runs: seq<seq<Candidate>>, stride: int): seq<Candidate> {
    if runs == [] then [] else Picks(runs[0], stride) + Survivors(runs[1..], stride)
  }

  lemma {:induction false} SurvivorsAppend(runs: seq<seq<Candidate>>, last: seq<Candidate>, stride: int)
    ensures Survivors(runs + [last], stride) == Survivors(runs, stride) + Picks(last, stride)
  {
    if runs == [] {
      assert [last][1..] == [];
    } else {
      assert (runs + [last])[1..] == runs[1..] + [last];
      SurvivorsAppend(runs[1..], last, stride);
    }
  }

  ghost predicate Ordered(runs: seq<seq<Candidate>>) {
    forall r | r in runs :: r != [] && InTurnOrder(r)
  }

  lemma {:induction false} RunsOrdered(rows: seq<Candidate>, gap: int)
    requires InTurnOrder(rows)
    ensures Ordered(Runs(rows, gap))
    decreases |rows|
  {
    if rows == [] {
    } else {
      RunsOrdered(rows[RunEnd(rows, gap)..], gap);
    }
  }

  /** A longer stride never keeps more. */
  lemma {:induction false} SurvivorsFall(runs: seq<seq<Candidate>>, stride: int, longer: int)
    requires Ordered(runs) && 1 <= stride <= longer
    ensures |Survivors(runs, longer)| <= |Survivors(runs, stride)|
  {
    if runs == [] {
    } else {
      assert runs[0] in runs;
      SegmentsFall(runs[0], stride, longer);
      SurvivorsFall(runs[1..], stride, longer);
    }
  }

  function Span(run: seq<Candidate>): int {
    if run == [] then 0 else run[|run| - 1].anchorTurn - run[0].anchorTurn
  }

  /** Every run keeps someone, and only one once the stride exceeds every span. */
  lemma {:induction false} SurvivorsAtLeastRuns(runs: seq<seq<Candidate>>, stride: int)
    requires Ordered(runs)
    ensures |Survivors(runs, stride)| >= |runs|
    ensures (forall r | r in runs :: Span(r) < stride) ==> |Survivors(runs, stride)| == |runs|
  {
    if runs == [] {
    } else {
      assert runs[0] in runs;
      SurvivorsAtLeastRuns(runs[1..], stride);
      if Span(runs[0]) < stride { OneSegment(runs[0], stride); }
    }
  }

  // ---- The imperative pruner ----

  lemma SplitOpen(rows: seq<Candidate>, gap: int, runs: seq<seq<Candidate>>, row: Candidate)
    requires IsRunSplit(rows, gap, runs)
    requires runs != [] ==> runs[|runs| - 1] != [] && Apart(runs[|runs| - 1], [row], gap)
    ensures IsRunSplit(rows + [row], gap, runs + [[row]])
  {
    ConcatAppend(runs, [row]);
    assert Chained([row], gap);
  }

  lemma SplitExtend(rows: seq<Candidate>, gap: int, runs: seq<seq<Candidate>>, row: Candidate)
    requires IsRunSplit(rows, gap, runs) && runs != [] && runs[|runs| - 1] != []
    requires row.anchorTurn - runs[|runs| - 1][|runs[|runs| - 1]| - 1].anchorTurn <= gap
    ensures IsRunSplit(rows + [row], gap, runs[|runs| - 1 := runs[|runs| - 1] + [row]])
  {
    var n := |runs| - 1;
    var last := runs[n];
    var next := runs[n := last + [row]];
    assert runs == runs[..n] + [last] && next == runs[..n] + [last + [row]];
    ConcatAppend(runs[..n], last);
    ConcatAppend(runs[..n], last + [row]);
    assert last in runs && Chained(last, gap);
    assert Chained(last + [row], gap);
    forall r | r in next ensures r != [] && Chained(r, gap) {
      if r != last + [row] { assert r in runs; }
    }
    forall i, j | 0 <= i < |next| && j == i + 1 && j < |next| ensures Apart(next[i], next[j], gap) {
      assert Apart(runs[i], runs[j], gap);
    }
  }

  /** `runs_at`. */
  method RunsAt(kept: seq<Candidate>, gap: int) returns (runs: seq<seq<Candidate>>)
    ensures runs == Runs(kept, gap)
  {
    runs := [];
    for i := 0 to |kept|
      invariant IsRunSplit(kept[..i], gap, runs)
      invariant i > 0 <==> runs != []
    {
      var row := kept[i];
      assert kept[..i + 1] == kept[..i] + [row];
      assert runs != [] ==> runs[|runs| - 1] in runs;
      if runs != [] && row.anchorTurn - runs[|runs| - 1][|runs[|runs| - 1]| - 1].anchorTurn <= gap {
        SplitExtend(kept[..i], gap, runs, row);
        runs := runs[|runs| - 1 := runs[|runs| - 1] + [row]];
      } else {
        SplitOpen(kept[..i], gap, runs, row);
        runs := runs + [[row]];
      }
    }
    assert kept[..|kept|] == kept;
    RunsUnique(kept, gap, runs);
  }

  /** What is picked so far, and the picks from `from` on, are all the picks of the run. */
  ghost predicate PickedBefore(run: seq<Candidate>, stride: int, picked: seq<Candidate>, from: nat) {
    from <= |run| && Picks(run, stride) == picked + PicksFrom(run, stride, from)
  }

  lemma NonePicked(run: seq<Candidate>, stride: int)
    ensures PickedBefore(run, stride, [], 0)
  {
    AppendNothing(Picks(run, stride));
  }

  lemma PickOne(run: seq<Candidate>, stride: int, from: nat, to: nat)
    requires IsSegment(run, stride, from, to)
    ensures PicksFrom(run, stride, from)
         == [run[from..to][Longest(run[from..to])]] + PicksFrom(run, stride, to)
  {
    assert SegmentEnd(run, stride, from, from + 1) == to;
  }

  /** Appends a finished segment's longest anchor. */
  method Close(run: seq<Candidate>, stride: int, picked: seq<Candidate>, segment: seq<Candidate>, ghost from: nat,
               ghost to: nat)
    returns (more: seq<Candidate>)
    requires IsSegment(run, stride, from, to) && segment == run[from..to]
    requires PickedBefore(run, stride, picked, from)
    ensures PickedBefore(run, stride, more, to)
  {
    PickOne(run, stride, from, to);
    AppendAssociates(picked, [segment[Longest(segment)]], PicksFrom(run, stride, to));
    more := picked + [segment[Longest(segment)]];
  }

  lemma NoneLeft(run: seq<Candidate>, stride: int, picked: seq<Candidate>)
    requires PickedBefore(run, stride, picked, |run|)
    ensures picked == Picks(run, stride)
  {
    assert PicksFrom(run, stride, |run|) == [];
    AppendNothing(picked);
  }

  /** The segment that began at `from` has reached `i`; only before the first row is it empty. */
  ghost predicate Growing(run: seq<Candidate>, stride: int, segment: seq<Candidate>, from: nat, i: nat) {
    && from < |run| && from <= i <= |run| && segment == run[from..i] && Within(run, stride, from, i)
    && (i > 0 ==> from < i && stride >= 1)
  }

  lemma GrowingNext(run: seq<Candidate>, stride: int, segment: seq<Candidate>, from: nat, i: nat)
    requires from <= i < |run| && segment == run[from..i] && Within(run, stride, from, i) && stride >= 1
    requires run[i].anchorTurn - run[from].anchorTurn < stride
    ensures Growing(run, stride, segment + [run[i]], from, i + 1)
  {
  }

  /** The loop of `collapse` over one run. */
  method CollapseRun(run: seq<Candidate>, stride: int) returns (r: Result<seq<Candidate>, PruneError>)
    requires run != []
    ensures stride >= 1 ==> r == Ok(Picks(run, stride))
    ensures stride < 1 ==> r == Refused(EmptySegment)
  {
    var picked, segment: seq<Candidate> := [], [];
    var segmentStart := run[0].anchorTurn;
    ghost var from := 0;
    NonePicked(run, stride);
    for i := 0 to |run|
      invariant from < |run| && segmentStart == run[from].anchorTurn
      invariant Growing(run, stride, segment, from, i)
      invariant PickedBefore(run, stride, picked, from)
    {
      var row := run[i];
      if row.anchorTurn - segmentStart >= stride {
        assert |segment| == i - from;
        if segment == [] {
          return Refused(EmptySegment);
        }
        picked := Close(run, stride, picked, segment, from, i);
        segment, segmentStart, from := [], row.anchorTurn, i;
      }
      GrowingNext(run, stride, segment, from, i);
      segment := segment + [row];
    }
    picked := Close(run, stride, picked, segment, from, |run|);
    NoneLeft(run, stride, picked);
    r := Ok(picked);
  }

  /** `collapse`. */
  method Collapse(runs: seq<seq<Candidate>>, stride: int) returns (r: Result<seq<Candidate>, PruneError>)
    requires forall run | run in runs :: run != []
    ensures stride >= 1 || runs == [] ==> r == Ok(Survivors(runs, stride))
    ensures stride < 1 && runs != [] ==> r == Refused(EmptySegment)
  {
    var survivors: seq<Candidate> := [];
    for i := 0 to |runs|
      invariant survivors == Survivors(runs[..i], stride)
      invariant i > 0 ==> stride >= 1
    {
      assert runs[i] in runs;
      var picked := CollapseRun(runs[i], stride);
      if picked.Refused? {
        return Refused(picked.error);
      }
      SurvivorsAppend(runs[..i], runs[i], stride);
      assert runs[..i + 1] == runs[..i] + [runs[i]];
      survivors := survivors + picked.value;
    }
    assert runs[..|runs|] == runs;
    r := Ok(survivors);
  }

  // ---- The search for a fit ----

  /** Every stride from `floor` up to `stride` leaves too many survivors. */
  ghost predicate TooManyFrom(runs: seq<seq<Candidate>>, budget: int, floor: int, stride: int) {
    forall s | floor <= s < stride :: |Survivors(runs, s)| > budget
  }

  lemma TooManyStrides(runs: seq<seq<Candidate>>, budget: int, floor: int, stride: int)
    requires TooManyFrom(runs, budget, floor, stride) && |Survivors(runs, stride)| > budget
    ensures TooManyFrom(runs, budget, floor, stride + 1)
  {
  }

  /** `stride` is the least one, from `floor` up, whose survivors fit. */
  ghost predicate LeastStride(runs: seq<seq<Candidate>>, budget: int, floor: int, stride: int) {
    floor <= stride && |Survivors(runs, stride)| <= budget && TooManyFrom(runs, budget, floor, stride)
  }

  /** Every gap below `gap` leaves too many runs. */
  ghost predicate TooManyBelow(kept: seq<Candidate>, budget: int, gap: int) {
    forall g | 1 <= g < gap :: RunTotal(kept, g) > budget
  }

  lemma TooManyNext(kept: seq<Candidate>, budget: int, gap: int)
    requires TooManyBelow(kept, budget, gap) && RunTotal(kept, gap) > budget
    ensures TooManyBelow(kept, budget, gap + 1)
  {
    forall g | 1 <= g < gap + 1 ensures RunTotal(kept, g) > budget {
      if g != gap {
        assert 1 <= g < gap;
      }
    }
  }

  /** `gap` is the least one whose run count fits. */
  ghost predicate LeastGap(kept: seq<Candidate>, budget: int, maxGap: int, gap: int) {
    1 <= gap <= maxGap && RunTotal(kept, gap) <= budget && TooManyBelow(kept, budget, gap)
  }

  /** The greatest turn span of the runs. */
  function Widest(runs: seq<seq<Candidate>>): int
    requires runs != []
  {
    if |runs| == 1 then Span(runs[0])
    else
      var n := |runs| - 1;
      if Span(runs[n]) > Widest(runs[..n]) then Span(runs[n]) else Widest(runs[..n])
  }

  lemma {:induction false} WidestIs(runs: seq<seq<Candidate>>)
    requires runs != []
    ensures forall run | run in runs :: Span(run) <= Widest(runs)
    ensures exists run :: run in runs && Span(run) == Widest(runs)
  {
    if |runs| == 1 {
      assert runs[0] in runs;
    } else {
      var n := |runs| - 1;
      WidestIs(runs[..n]);
      assert runs == runs[..n] + [runs[n]];
    }
  }

  /** The last stride tried: the floor, or one above the widest span. */
  function LastStride(runs: seq<seq<Candidate>>, floor: int): int
    requires runs != []
  {
    if floor > Widest(runs) then floor else Widest(runs) + 1
  }

  /** No stride that is tried leaves few enough survivors. */
  ghost predicate Exhausted(runs: seq<seq<Candidate>>, budget: int, floor: int) {
    runs != [] && TooManyFrom(runs, budget, floor, LastStride(runs, floor) + 1)
  }

  method LongestSpan(runs: seq<seq<Candidate>>) returns (longest: int)
    requires runs != []
    ensures longest == Widest(runs)
  {
    longest := Span(runs[0]);
    for i := 1 to |runs|
      invariant longest == Widest(runs[..i])
    {
      assert runs[..i + 1][..i] == runs[..i];
      if Span(runs[i]) > longest {
        longest := Span(runs[i]);
      }
    }
    assert runs[..|runs|] == runs;
  }

  /** The inner `while True`: the stride grows until the survivors fit, or the guard refuses, which
      it does exactly when no stride that is tried fits. */
  method FitStride(runs: seq<seq<Candidate>>, budget: int, floor: int)
    returns (r: Result<(int, seq<Candidate>), PruneError>)
    requires runs != [] && forall run | run in runs :: run != []
    ensures floor < 1 ==> r == Refused(EmptySegment)
    ensures r.Ok? ==> LeastStride(runs, budget, floor, r.value.0) && r.value.1 == Survivors(runs, r.value.0)
    ensures r.Ok? ==> r.value.0 <= LastStride(runs, floor)
    ensures floor >= 1 && r.Refused? ==> r.error == StrideExhausted
    ensures floor >= 1 ==> (r.Refused? <==> Exhausted(runs, budget, floor))
  {
    var longestSpan := LongestSpan(runs);
    var stride := floor;
    while true
      invariant stride >= floor && (stride > floor ==> floor >= 1) && stride <= LastStride(runs, floor)
      invariant TooManyFrom(runs, budget, floor, stride)
      decreases longestSpan + 1 - stride
    {
      var survivors := Collapse(runs, stride);
      if survivors.Refused? {
        return Refused(survivors.error);
      }
      if |survivors.value| <= budget {
        return Ok((stride, survivors.value));
      }
      TooManyStrides(runs, budget, floor, stride);
      if stride > longestSpan {
        return Refused(StrideExhausted);
      }
      stride := stride + 1;
    }
  }

  /** In turn order the raise is not reached once the runs themselves fit. */
  lemma OrderedNeverExhausts(runs: seq<seq<Candidate>>, budget: int, floor: int)
    requires runs != [] && Ordered(runs) && |runs| <= budget
    ensures !Exhausted(runs, budget, floor)
  {
    var stride := LastStride(runs, floor);
    WidestIs(runs);
    SurvivorsAtLeastRuns(runs, stride);
    assert |Survivors(runs, stride)| <= budget;
  }

  /** What the two loops return for kept rows: no fit, the fit, or a refusal. */
  ghost predicate FitSpec(kept: seq<Candidate>, budget: int, floor: int, maxGap: int,
                          r: Result<(Option<Fit>, seq<Candidate>), PruneError>) {
    match r
    case Ok((Some(fit), pruned)) =>
      && floor >= 1
      && LeastGap(kept, budget, maxGap, fit.gap)
      && LeastStride(Runs(kept, fit.gap), budget, floor, fit.stride)
      && !Exhausted(Runs(kept, fit.gap), budget, floor)
      && pruned == Survivors(Runs(kept, fit.gap), fit.stride)
    case Ok((None, pruned)) =>
      && (kept != [] ==> floor >= 1 && TooManyBelow(kept, budget, maxGap + 1))
      && pruned == if kept == [] then [] else Survivors(Runs(kept, maxGap), floor)
    case Refused(e) =>
      && kept != []
      && if floor < 1 then e == EmptySegment
         else
           e == StrideExhausted
           && exists gap :: LeastGap(kept, budget, maxGap, gap) && Exhausted(Runs(kept, gap), budget, floor)
  }

  lemma {:induction false} RunsNotEmpty(kept: seq<Candidate>, gap: int)
    ensures forall run | run in Runs(kept, gap) :: run != []
    ensures kept != [] ==> Runs(kept, gap) != []
    decreases |kept|
  {
    if kept == [] {
    } else {
      RunsNotEmpty(kept[RunEnd(kept, gap)..], gap);
    }
  }

  /** The body of the gap loop, once the runs fit. */
  method FitAt(kept: seq<Candidate>, runs: seq<seq<Candidate>>, gap: int, budget: int, floor: int)
    returns (r: Result<(Option<Fit>, seq<Candidate>), PruneError>)
    requires kept != [] && runs == Runs(kept, gap) && |runs| <= budget
    ensures floor < 1 ==> r == Refused(EmptySegment)
    ensures floor >= 1 ==> (r.Refused? <==> Exhausted(runs, budget, floor))
    ensures floor >= 1 && r.Refused? ==> r.error == StrideExhausted
    ensures r.Ok? ==> r.value.0.Some? && r.value.0.value.gap == gap
    ensures r.Ok? ==> LeastStride(runs, budget, floor, r.value.0.value.stride)
    ensures r.Ok? ==> r.value.1 == Survivors(runs, r.value.0.value.stride)
  {
    RunsNotEmpty(kept, gap);
    var fitted := FitStride(runs, budget, floor);
    if fitted.Refused? {
      return Refused(fitted.error);
    }
    r := Ok((Some(Fit(gap, fitted.value.0)), fitted.value.1));
  }

  /** The `else` of the gap loop: the widest gap, over budget. */
  method CollapseWidest(kept: seq<Candidate>, maxGap: int, floor: int)
    returns (r: Result<(Option<Fit>, seq<Candidate>), PruneError>)
    requires kept != []
    ensures r == if floor < 1 then Refused(EmptySegment) else Ok((None, Survivors(Runs(kept, maxGap), floor)))
  {
    RunsNotEmpty(kept, maxGap);
    var widest := RunsAt(kept, maxGap);
    var over := Collapse(widest, floor);
    if over.Refused? {
      return Refused(over.error);
    }
    r := Ok((None, over.value));
  }

  /** The gap loop with its `else`. */
  method FitBudget(kept: seq<Candidate>, budget: int, floor: int, maxGap: int)
    returns (r: Result<(Option<Fit>, seq<Candidate>), PruneError>)
    ensures FitSpec(kept, budget, floor, maxGap, r)
    ensures floor < 1 && kept != [] ==> r == Refused(EmptySegment)
  {
    if kept == [] {
      return Ok((None, []));
    }
    var gap := 1;
    while gap <= maxGap
      invariant TooManyBelow(kept, budget, gap)
      invariant gap >= 1 && (maxGap >= 0 ==> gap <= maxGap + 1)
    {
      var runs := RunsAt(kept, gap);
      if |runs| <= budget {
        r := FitAt(kept, runs, gap, budget, floor);
        return;
      }
      TooManyNext(kept, budget, gap);
      gap := gap + 1;
    }
    assert TooManyBelow(kept, budget, maxGap + 1);
    r := CollapseWidest(kept, maxGap, floor);
  }

  // ---- The properties of a fit ----

  lemma OrderedNeverRefused(kept: seq<Candidate>, budget: int, floor: int, maxGap: int,
                            r: Result<(Option<Fit>, seq<Candidate>), PruneError>)
    requires InTurnOrder(kept) && floor >= 1 && FitSpec(kept, budget, floor, maxGap, r)
    ensures r.Ok?
  {
    if r.Refused? {
      var gap :| LeastGap(kept, budget, maxGap, gap) && Exhausted(Runs(kept, gap), budget, floor);
      RunsNotEmpty(kept, gap);
      RunsOrdered(kept, gap);
      OrderedNeverExhausts(Runs(kept, gap), budget, floor);
    }
  }

  /** Over rows in turn order nothing is refused, and a fit is found exactly when some gap in range
      leaves few enough runs. A miss is over budget whenever there is a gap in range to miss, or
      the budget is too small for anything. */
  lemma FitExists(kept: seq<Candidate>, budget: int, floor: int, maxGap: int,
                  r: Result<(Option<Fit>, seq<Candidate>), PruneError>)
    requires kept != [] && InTurnOrder(kept) && floor >= 1 && FitSpec(kept, budget, floor, maxGap, r)
    ensures r.Ok?
    ensures r.value.0.Some? <==> exists gap :: 1 <= gap <= maxGap && RunTotal(kept, gap) <= budget
    ensures r.value.0.Some? ==> |r.value.1| <= budget
    ensures r.value.0.None? && (maxGap >= 1 || budget < 1) ==> |r.value.1| > budget
  {
    OrderedNeverRefused(kept, budget, floor, maxGap, r);
    if r.value.0.Some? {
      var fit := r.value.0.value;
      assert RunTotal(kept, fit.gap) <= budget;
    } else {
      assert maxGap >= 1 ==> RunTotal(kept, maxGap) > budget;
      RunsNotEmpty(kept, maxGap);
      RunsOrdered(kept, maxGap);
      SurvivorsAtLeastRuns(Runs(kept, maxGap), floor);
    }
  }

  ghost predicate Missed(kept: seq<Candidate>, budget: int, floor: int, maxGap: int, a: (Option<Fit>, seq<Candidate>)) {
    a.0.None? && FitSpec(kept, budget, floor, maxGap, Ok(a))
  }

  /** With no gap in range one kept row is reported as a miss, and fits. */
  lemma MissWithinBudget(row: Candidate, budget: int, floor: int, maxGap: int)
    requires floor >= 1 && maxGap < 1 && budget >= 1
    ensures InTurnOrder([row]) && Missed([row], budget, floor, maxGap, (None, [row])) && |[row]| <= budget
  {
    assert Runs([row], maxGap) == [[row]] by { assert [row][..1] == [row] && [row][1..] == []; }
    assert SegmentEnd([row], floor, 0, 1) == 1;
    assert [row][0..1] == [row] && Longest([row]) == 0;
    assert Picks([row], floor) == [row];
  }

  /** A reported miss of at least one kept row is over budget, whatever was kept, exactly when there
      is a gap in range or the budget has no room for even one survivor. Nothing kept is reported
      as no fit too, and its empty result is over a negative budget only. */
  lemma MissIsOver(budget: int, floor: int, maxGap: int)
    requires floor >= 1
    ensures (forall kept, a | kept != [] && InTurnOrder(kept) && Missed(kept, budget, floor, maxGap, a) ::
               |a.1| > budget)
        <==> (maxGap >= 1 || budget < 1)
    ensures (forall a | Missed([], budget, floor, maxGap, a) :: |a.1| > budget) <==> budget < 0
  {
    assert Missed([], budget, floor, maxGap, (None, []));
    if maxGap >= 1 || budget < 1 {
      forall kept, a | kept != [] && InTurnOrder(kept) && Missed(kept, budget, floor, maxGap, a)
        ensures |a.1| > budget
      {
        FitExists(kept, budget, floor, maxGap, Ok(a));
      }
    } else {
      var row := Candidate("c", 0, "f", 0, 0, 1, ["f"]);
      MissWithinBudget(row, budget, floor, maxGap);
    }
  }

  /** The least fitting gap behind an outcome, or none when the outcome is a miss. */
  lemma GapOf(kept: seq<Candidate>, budget: int, floor: int, maxGap: int,
              r: Result<(Option<Fit>, seq<Candidate>), PruneError>) returns (gap: Option<int>)
    requires kept != [] && floor >= 1 && FitSpec(kept, budget, floor, maxGap, r)
    ensures gap.None? <==> TooManyBelow(kept, budget, maxGap + 1)
    ensures gap.None? <==> r.Ok? && r.value.0.None?
    ensures gap.Some? ==> LeastGap(kept, budget, maxGap, gap.value)
    ensures gap.Some? ==> (r.Refused? <==> Exhausted(Runs(kept, gap.value), budget, floor))
    ensures gap.Some? && r.Ok? ==> gap.value == r.value.0.value.gap
  {
    if r.Refused? {
      var g :| LeastGap(kept, budget, maxGap, g) && Exhausted(Runs(kept, g), budget, floor);
      gap := Some(g);
      assert RunTotal(kept, g) <= budget;
    } else if r.value.0.Some? {
      gap := Some(r.value.0.value.gap);
      assert RunTotal(kept, r.value.0.value.gap) <= budget;
    } else {
      gap := None;
    }
  }

  lemma LeastGapUnique(kept: seq<Candidate>, budget: int, maxGap: int, g: int, h: int)
    requires LeastGap(kept, budget, maxGap, g) && LeastGap(kept, budget, maxGap, h)
    ensures g == h
  {
    assert RunTotal(kept, g) <= budget && RunTotal(kept, h) <= budget;
  }

  lemma LeastStrideUnique(runs: seq<seq<Candidate>>, budget: int, floor: int, s: int, t: int)
    requires LeastStride(runs, budget, floor, s) && LeastStride(runs, budget, floor, t)
    ensures s == t
  {
    assert |Survivors(runs, s)| <= budget && |Survivors(runs, t)| <= budget;
  }

  /** The outcome is determined by what it promises: no two outcomes meet it. */
  lemma FitIsUnique(kept: seq<Candidate>, budget: int, floor: int, maxGap: int,
                    a: Result<(Option<Fit>, seq<Candidate>), PruneError>,
                    b: Result<(Option<Fit>, seq<Candidate>), PruneError>)
    requires kept != [] && FitSpec(kept, budget, floor, maxGap, a) && FitSpec(kept, budget, floor, maxGap, b)
    ensures a == b
  {
    if floor >= 1 {
      var g := GapOf(kept, budget, floor, maxGap, a);
      var h := GapOf(kept, budget, floor, maxGap, b);
      if g.Some? && h.Some? {
        LeastGapUnique(kept, budget, maxGap, g.value, h.value);
        if a.Ok? && b.Ok? {
          LeastStrideUnique(Runs(kept, g.value), budget, floor, a.value.0.value.stride, b.value.0.value.stride);
        }
      }
    }
  }

  /** Both reported values are thresholds: every gap and every stride beyond them fits as well,
      and none before them does. */
  lemma {:induction false} FitIsThreshold(kept: seq<Candidate>, budget: int, floor: int, maxGap: int, fit: Fit)
    requires InTurnOrder(kept) && floor >= 1
    requires LeastGap(kept, budget, maxGap, fit.gap) && LeastStride(Runs(kept, fit.gap), budget, floor, fit.stride)
    ensures forall g | 1 <= g <= maxGap :: RunTotal(kept, g) <= budget <==> g >= fit.gap
    ensures forall s | s >= floor :: |Survivors(Runs(kept, fit.gap), s)| <= budget <==> s >= fit.stride
  {
    forall g | fit.gap <= g ensures RunTotal(kept, g) <= budget {
      RunsFall(kept, fit.gap, g);
    }
    RunsOrdered(kept, fit.gap);
    forall s | fit.stride <= s ensures |Survivors(Runs(kept, fit.gap), s)| <= budget {
      SurvivorsFall(Runs(kept, fit.gap), fit.stride, s);
    }
  }

  // ---- Rows out of turn order ----

  lemma TriesOnce(kept: seq<Candidate>)
    requires |kept| == 3 && kept[0].anchorTurn == 0 && kept[2].anchorTurn == 0 && |Survivors([kept], 5)| == 2
    ensures Exhausted([kept], 1, 5)
  {
    assert Span(kept) == 0 && LastStride([kept], 5) == 5;
  }

  lemma OneRun(kept: seq<Candidate>)
    requires |kept| == 3 && kept[0].anchorTurn == 0 && kept[1].anchorTurn == 5 && kept[2].anchorTurn == 0
    ensures Runs(kept, 5) == [kept] && LeastGap(kept, 1, 5, 5)
  {
    assert kept[..3] == kept && kept[3..] == [];
    forall gap | 1 <= gap < 5 ensures RunTotal(kept, gap) > 1 {
      RunCount(kept, gap);
    }
  }

  lemma SegmentsAt(kept: seq<Candidate>)
    requires |kept| == 3 && kept[0].anchorTurn == 0 && kept[1].anchorTurn == 5 && kept[2].anchorTurn == 0
    ensures |Picks(kept, 5)| == 2 && |Picks(kept, 6)| == 1
  {
    assert SegmentEnd(kept, 5, 0, 1) == 1 && SegmentEnd(kept, 5, 1, 3) == 3 && SegmentEnd(kept, 5, 1, 2) == 3;
    assert SegmentEnd(kept, 6, 0, 3) == 3 && SegmentEnd(kept, 6, 0, 2) == 3 && SegmentEnd(kept, 6, 0, 1) == 3;
    assert SegmentCount(kept, 5, 3) == 0 && SegmentCount(kept, 5, 1) == 1 && SegmentCount(kept, 5, 0) == 2;
    assert SegmentCount(kept, 6, 3) == 0 && SegmentCount(kept, 6, 0) == 1;
  }

  /** Turn order is what keeps the raise away. Rows at turns 0, 5, 0 make one run, whose span is
      measured as 0; stride 5 leaves two survivors of a budget of one, and the raise is reached
      although the next stride would fit. */
  lemma RaiseReached() returns (kept: seq<Candidate>)
    ensures |kept| == 3 && kept[0].anchorTurn == 0 && kept[1].anchorTurn == 5 && kept[2].anchorTurn == 0
    ensures Runs(kept, 5) == [kept] && LeastGap(kept, 1, 5, 5)
    ensures Exhausted(Runs(kept, 5), 1, 5) && FitSpec(kept, 1, 5, 5, Refused(StrideExhausted))
    ensures |Survivors(Runs(kept, 5), 6)| == 1
  {
    var a := Candidate("a", 0, "f", 0, 0, 1, ["f"]);
    var b := Candidate("b", 1, "g", 5, 0, 1, ["g"]);
    var c := Candidate("c", 2, "f", 0, 0, 1, ["f"]);
    kept := [a, b, c];
    OneRun(kept);
    SegmentsAt(kept);
    TriesOnce(kept);
  }

  // ---- What survives stands for what was kept ----

  /** `row` stands for the kept row `other`: same run, less than `stride` turns away, in a segment
      where nothing is longer and nothing earlier is as long. */
  ghost predicate Represents(run: seq<Candidate>, stride: int, k: nat, from: nat, to: nat, i: nat) {
    && IsSegment(run, stride, from, to) && from <= i < to && from <= k < to
    && (forall j | from <= j < to :: Length(run[j]) <= Length(run[k]))
    && (forall j | from <= j < k :: Length(run[j]) < Length(run[k]))
  }

  /** Every row of a run has its representative among the survivors. */
  lemma {:induction false} EveryRowRepresented(run: seq<Candidate>, stride: int, start: nat, i: nat)
    returns (k: nat, from: nat, to: nat)
    requires start <= i < |run|
    ensures Represents(run, stride, k, from, to, i) && run[k] in PicksFrom(run, stride, start)
    decreases |run| - start
  {
    var end := SegmentEnd(run, stride, start, start + 1);
    var segment := run[start..end];
    if i < end {
      var best := Longest(segment);
      k, from, to := start + best, start, end;
      assert forall j | start <= j < end :: run[j] == segment[j - start];
    } else {
      k, from, to := EveryRowRepresented(run, stride, end, i);
    }
  }

  /** In turn order, a row and its representative are less than `stride` turns apart. */
  lemma RepresentativeIsNear(run: seq<Candidate>, stride: int, k: nat, from: nat, to: nat, i: nat)
    requires stride >= 1 && InTurnOrder(run) && Represents(run, stride, k, from, to, i)
    ensures -stride < run[k].anchorTurn - run[i].anchorTurn < stride
  {
    assert run[from].anchorTurn <= run[i].anchorTurn && run[from].anchorTurn <= run[k].anchorTurn;
  }

  /** `sub` picks some of `rows`, in order. */
  predicate Subsequence(sub: seq<Candidate>, rows: seq<Candidate>) {
    if sub == [] then true
    else if rows == [] then false
    else (sub[0] == rows[0] && Subsequence(sub[1..], rows[1..])) || Subsequence(sub, rows[1..])
  }

  lemma {:induction false} SubsequenceSkip(sub: seq<Candidate>, front: seq<Candidate>, rows: seq<Candidate>)
    requires Subsequence(sub, rows)
    ensures Subsequence(sub, front + rows)
  {
    if front == [] {
      AppendNothing(rows);
    } else {
      assert (front + rows)[1..] == front[1..] + rows;
      SubsequenceSkip(sub, front[1..], rows);
    }
  }

  lemma SubsequencePick(row: Candidate, sub: seq<Candidate>, segment: seq<Candidate>, k: nat, rows: seq<Candidate>)
    requires Subsequence(sub, rows) && k < |segment| && segment[k] == row
    ensures Subsequence([row] + sub, segment + rows)
  {
    SubsequenceSkip(sub, segment[k + 1..], rows);
    var rest := [row] + (segment[k + 1..] + rows);
    assert rest[1..] == segment[k + 1..] + rows && ([row] + sub)[1..] == sub;
    SubsequenceSkip([row] + sub, segment[..k], rest);
    assert segment + rows == segment[..k] + rest;
  }

  lemma {:induction false} SubsequenceJoin(a: seq<Candidate>, x: seq<Candidate>, b: seq<Candidate>, y: seq<Candidate>)
    requires Subsequence(a, x) && Subsequence(b, y)
    ensures Subsequence(a + b, x + y)
    decreases |x|
  {
    if a == [] {
      AppendNothing(b);
      SubsequenceSkip(b, x, y);
    } else {
      assert (x + y)[1..] == x[1..] + y && (a + b)[1..] == a[1..] + b;
      if a[0] == x[0] && Subsequence(a[1..], x[1..]) {
        SubsequenceJoin(a[1..], x[1..], b, y);
      } else {
        SubsequenceJoin(a, x[1..], b, y);
      }
    }
  }

  lemma {:induction false} PicksAreRows(run: seq<Candidate>, stride: int, from: nat)
    requires from <= |run|
    ensures Subsequence(PicksFrom(run, stride, from), run[from..])
    decreases |run| - from
  {
    if from < |run| {
      var end := SegmentEnd(run, stride, from, from + 1);
      var segment := run[from..end];
      PicksAreRows(run, stride, end);
      SubsequencePick(segment[Longest(segment)], PicksFrom(run, stride, end), segment, Longest(segment), run[end..]);
      assert run[from..] == segment + run[end..];
    }
  }

  /** The survivors are kept rows, in kept order. */
  lemma {:induction false} SurvivorsAreRows(runs: seq<seq<Candidate>>, stride: int)
    ensures Subsequence(Survivors(runs, stride), Concat(runs))
  {
    if runs == [] {
    } else {
      PicksAreRows(runs[0], stride, 0);
      assert runs[0][0..] == runs[0];
      SurvivorsAreRows(runs[1..], stride);
      SubsequenceJoin(Picks(runs[0], stride), runs[0], Survivors(runs[1..], stride), Concat(runs[1..]));
    }
  }

  lemma {:induction false} PickSurvives(runs: seq<seq<Candidate>>, stride: int, run: seq<Candidate>, row: Candidate)
    requires run in runs && row in Picks(run, stride)
    ensures row in Survivors(runs, stride)
  {
    if run != runs[0] {
      PickSurvives(runs[1..], stride, run, row);
    }
  }

  lemma {:induction false} RowHasRun(runs: seq<seq<Candidate>>, row: Candidate) returns (run: seq<Candidate>)
    requires row in Concat(runs)
    ensures run in runs && row in run
  {
    if row in runs[0] {
      run := runs[0];
    } else {
      run := RowHasRun(runs[1..], row);
    }
  }

  /** Coverage: pruning never loses a stretch of the meeting. Every kept row has, in its own run,
      a survivor less than `stride` turns away whose anchor is at least as long. */
  lemma KeptRowIsCovered(kept: seq<Candidate>, gap: int, stride: int, row: Candidate)
    returns (run: seq<Candidate>, survivor: Candidate)
    requires InTurnOrder(kept) && stride >= 1 && row in kept
    ensures run in Runs(kept, gap) && row in run && survivor in run
    ensures survivor in Survivors(Runs(kept, gap), stride)
    ensures -stride < survivor.anchorTurn - row.anchorTurn < stride
    ensures survivor.anchorCharEnd - survivor.anchorCharStart >= row.anchorCharEnd - row.anchorCharStart
  {
    RunsSplit(kept, gap);
    RunsOrdered(kept, gap);
    run := RowHasRun(Runs(kept, gap), row);
    var i :| 0 <= i < |run| && run[i] == row;
    var k, from, to := EveryRowRepresented(run, stride, 0, i);
    RepresentativeIsNear(run, stride, k, from, to, i);
    survivor := run[k];
    PickSurvives(Runs(kept, gap), stride, run, survivor);
  }

  // ---- The whole pruner ----

  /** The rows decided KEEP, in decision order. */
  function KeptRows(rows: map<string, Candidate>, decisions: seq<Decision>): seq<Candidate> {
    if decisions == [] then []
    else
      var d := decisions[0];
      (if d.verdict == KEEP && d.id in rows then [rows[d.id]] else []) + KeptRows(rows, decisions[1..])
  }

  lemma {:induction false} KeptRowsMean(rows: map<string, Candidate>, decisions: seq<Decision>)
    requires forall id | id in rows :: rows[id].id == id
    ensures forall c :: c in KeptRows(rows, decisions) <==>
      Decision(c.id, KEEP) in decisions && c.id in rows && rows[c.id] == c
    ensures (forall d | d in decisions :: d.id in rows) ==> |KeptRows(rows, decisions)| == Tally(decisions, KEEP)
  {
    if decisions != [] {
      KeptRowsMean(rows, decisions[1..]);
      TallyHead(decisions, KEEP);
      assert forall d :: d in decisions <==> d == decisions[0] || d in decisions[1..];
    }
  }

  function Kept(candidates: seq<Candidate>, decisions: seq<Decision>): seq<Candidate> {
    SortBy(KeptRows(ById(candidates), decisions), (a: Candidate, b: Candidate) => a.ordinal <= b.ordinal)
  }

  /** Exactly one decision per candidate ID, and no other decision. */
  ghost predicate Covers(rows: map<string, Candidate>, decisions: seq<Decision>) {
    && (forall i, j | 0 <= i < j < |decisions| :: decisions[i].id != decisions[j].id)
    && (forall id :: id in rows <==> exists d :: d in decisions && d.id == id)
  }

  /** The checks in front of the pruner, in their order. */
  method CheckDecisions(rows: map<string, Candidate>, decisions: seq<Decision>)
    returns (refusal: Option<PruneError>)
    ensures refusal.None? <==> Covers(rows, decisions)
    ensures refusal.Some? ==> refusal.value.AboutDecisions()
  {
    var verdicts: map<string, Verdict> := map[];
    for i := 0 to |decisions|
      invariant forall j, k | 0 <= j < k < i :: decisions[j].id != decisions[k].id
      invariant forall id :: id in verdicts <==> exists j :: 0 <= j < i && decisions[j].id == id
      invariant verdicts.Keys <= rows.Keys
    {
      var row := decisions[i];
      if row.id !in rows {
        assert row in decisions;
        return Some(InvalidRow);
      }
      if row.id in verdicts {
        return Some(DuplicateDecision);
      }
      verdicts := verdicts[row.id := row.verdict];
    }
    assert forall id :: id in verdicts <==> exists d :: d in decisions && d.id == id by {
      forall id | id in verdicts ensures exists d :: d in decisions && d.id == id {
        var j :| 0 <= j < |decisions| && decisions[j].id == id;
        assert decisions[j] in decisions;
      }
    }
    refusal := if verdicts.Keys != rows.Keys then Some(CoverageMismatch) else None;
  }

  /** The rows of the candidates decided KEEP, a repeated ID standing for its last row. */
  ghost predicate KeepsDecided(candidates: seq<Candidate>, decisions: seq<Decision>, kept: seq<Candidate>) {
    && |kept| == |Holding(decisions, KEEP)|
    && forall c :: c in kept <==>
         Decision(c.id, KEEP) in decisions && c.id in ById(candidates) && ById(candidates)[c.id] == c
  }

  /** What is kept: each candidate decided KEEP, and no other, as often as it is decided so. */
  lemma KeptMeans(candidates: seq<Candidate>, decisions: seq<Decision>)
    requires Covers(ById(candidates), decisions)
    ensures KeepsDecided(candidates, decisions, Kept(candidates, decisions))
  {
    ByIdNames(candidates);
    KeptRowsMean(ById(candidates), decisions);
    TallyCounts(decisions, KEEP);
    var kept, rows := Kept(candidates, decisions), KeptRows(ById(candidates), decisions);
    forall c ensures c in kept <==> c in rows {
      assert c in kept <==> c in Elements(kept);
      assert c in rows <==> c in Elements(rows);
    }
  }

  predicate ByOrdinal(rows: seq<Candidate>) {
    forall i, j | 0 <= i < j < |rows| :: rows[i].ordinal <= rows[j].ordinal
  }

  lemma KeptByOrdinal(candidates: seq<Candidate>, decisions: seq<Decision>)
    ensures ByOrdinal(Kept(candidates, decisions))
  {
    var leq := (a: Candidate, b: Candidate) => a.ordinal <= b.ordinal;
    var rows := KeptRows(ById(candidates), decisions);
    SortBySorted(rows, leq);
    var kept := SortBy(rows, leq);
    forall i, j | 0 <= i < j < |kept| ensures kept[i].ordinal <= kept[j].ordinal {
      assert leq(kept[i], kept[j]);
    }
  }

  lemma {:induction false} SubsequenceByOrdinal(sub: seq<Candidate>, rows: seq<Candidate>)
    requires Subsequence(sub, rows) && ByOrdinal(rows)
    ensures ByOrdinal(sub)
    ensures forall i | 0 <= i < |sub| :: rows != [] && rows[0].ordinal <= sub[i].ordinal
    decreases |rows|
  {
    if sub == [] {
    } else if Subsequence(sub, rows[1..]) {
      SubsequenceByOrdinal(sub, rows[1..]);
    } else {
      SubsequenceByOrdinal(sub[1..], rows[1..]);
      assert forall i | 0 < i < |sub| :: sub[i] == sub[1..][i - 1];
    }
  }

  lemma {:induction false} SubsequenceMembers(sub: seq<Candidate>, rows: seq<Candidate>)
    requires Subsequence(sub, rows)
    ensures forall c | c in sub :: c in rows
    decreases |rows|
  {
    if sub == [] {
    } else if Subsequence(sub, rows[1..]) {
      SubsequenceMembers(sub, rows[1..]);
    } else {
      SubsequenceMembers(sub[1..], rows[1..]);
      assert forall c | c in sub :: c == sub[0] || c in sub[1..];
    }
  }

  /** What the search returns is picked from the kept rows, in their order. */
  lemma FitPicksRows(kept: seq<Candidate>, budget: int, floor: int, maxGap: int, a: (Option<Fit>, seq<Candidate>))
    requires FitSpec(kept, budget, floor, maxGap, Ok(a))
    ensures Subsequence(a.1, kept)
    ensures ByOrdinal(kept) ==> ByOrdinal(a.1)
  {
    if kept != [] {
      var gap := if a.0.Some? then a.0.value.gap else maxGap;
      RunsSplit(kept, gap);
      SurvivorsAreRows(Runs(kept, gap), if a.0.Some? then a.0.value.stride else floor);
    }
    if ByOrdinal(kept) { SubsequenceByOrdinal(a.1, kept); }
  }

  function FitOf(r: Result<Pruned, PruneError>): Result<(Option<Fit>, seq<Candidate>), PruneError> {
    match r
    case Ok(pruned) => Ok((pruned.fitted, pruned.survivors))
    case Refused(e) => Refused(e)
  }

  /** `prune_keeps`. */
  method PruneKeeps(candidates: seq<Candidate>, decisions: seq<Decision>, budget: int := 64, floor: int := 5,
                    maxGap: int := 10)
    returns (r: Result<Pruned, PruneError>)
    ensures !Covers(ById(candidates), decisions) <==> r.Refused? && r.error.AboutDecisions()
    ensures Covers(ById(candidates), decisions) ==>
      FitSpec(Kept(candidates, decisions), budget, floor, maxGap, FitOf(r))
    ensures r.Ok? ==> var kept := Kept(candidates, decisions);
      && r.value.decisions == |decisions| && r.value.keep == |kept|
      && r.value.runs == RunTotal(kept, if r.value.fitted.Some? then r.value.fitted.value.gap else maxGap)
    ensures r.Ok? ==> Subsequence(r.value.survivors, Kept(candidates, decisions)) && ByOrdinal(r.value.survivors)
    ensures Covers(ById(candidates), decisions) ==> KeepsDecided(candidates, decisions, Kept(candidates, decisions))
    ensures r.Ok? ==> r.value.keep == |Holding(decisions, KEEP)|
    ensures r.Ok? ==> forall c | c in r.value.survivors :: c in candidates && Decision(c.id, KEEP) in decisions
    ensures Covers(ById(candidates), decisions) && floor >= 1 && InTurnOrder(Kept(candidates, decisions)) ==> r.Ok?
  {
    var rows := ById(candidates);
    var refusal := CheckDecisions(rows, decisions);
    if refusal.Some? {
      return Refused(refusal.value);
    }
    KeptMeans(candidates, decisions);
    var kept := SortBy(KeptRows(rows, decisions), (a: Candidate, b: Candidate) => a.ordinal <= b.ordinal);
    var fit := FitBudget(kept, budget, floor, maxGap);
    if InTurnOrder(kept) && floor >= 1 { OrderedNeverRefused(kept, budget, floor, maxGap, fit); }
    if fit.Refused? {
      return Refused(fit.error);
    }
    KeptByOrdinal(candidates, decisions);
    FitPicksRows(kept, budget, floor, maxGap, fit.value);
    SubsequenceMembers(fit.value.1, kept);
    ByIdNames(candidates);
    var runs := RunsAt(kept, if fit.value.0.Some? then fit.value.0.value.gap else maxGap);
    r := Ok(Pruned(|decisions|, |kept|, |runs|, fit.value.0, fit.value.1));
  }

  lemma {:induction false} KeptAreCandidates(candidates: seq<Candidate>, decisions: seq<Decision>)
    ensures forall c | c in KeptRows(ById(candidates), decisions) :: c in candidates
  {
    ByIdNames(candidates);
    if decisions == [] {
    } else {
      KeptAreCandidates(candidates, decisions[1..]);
    }
  }

  /** In a manifest, where later candidates are anchored no earlier, what is kept is in turn
      order, so no covered set of decisions is refused. */
  lemma ManifestKeepsTurnOrder(candidates: seq<Candidate>, decisions: seq<Decision>)
    requires forall a, b | a in candidates && b in candidates && a.ordinal <= b.ordinal :: a.anchorTurn <= b.anchorTurn
    ensures InTurnOrder(Kept(candidates, decisions))
  {
    KeptByOrdinal(candidates, decisions);
    KeptAreCandidates(candidates, decisions);
    var kept := Kept(candidates, decisions);
    forall c | c in kept ensures c in candidates {
      assert c in Elements(kept);
    }
  }
}
