/** The two groupings behind budget-fitted pruning: gap runs, and greedy stride segments. */
module Coverage {
  import opened Common
  import opened Evidence

  /** Anchor turns do not decrease along the list. */
  ghost predicate InTurnOrder(rows: seq<Candidate>) {
    forall i, j | 0 <= i <= j < |rows| :: rows[i].anchorTurn <= rows[j].anchorTurn
  }

  // ---- Runs: maximal stretches whose neighbours are at most `gap` turns apart ----

  /** The end of the first run. */
  function RunEnd(rows: seq<Candidate>, gap: int): (k: nat)
    requires rows != []
    ensures 1 <= k <= |rows|
    ensures forall i | 0 < i < k :: rows[i].anchorTurn - rows[i - 1].anchorTurn <= gap
    ensures k < |rows| ==> rows[k].anchorTurn - rows[k - 1].anchorTurn > gap
  {
    if |rows| == 1 || rows[1].anchorTurn - rows[0].anchorTurn > gap then 1
    else 1 + RunEnd(rows[1..], gap)
  }

  function Runs(rows: seq<Candidate>, gap: int): seq<seq<Candidate>> {
    if rows == [] then []
    else
      var k := RunEnd(rows, gap);
      [rows[..k]] + Runs(rows[k..], gap)
  }

  /** How many runs a gap leaves. */
  function RunTotal(rows: seq<Candidate>, gap: int): nat {
    |Runs(rows, gap)|
  }

  /** Neighbours further apart than `gap`. */
  function Breaks(rows: seq<Candidate>, gap: int): nat {
    if |rows| <= 1 then 0
    else (if rows[1].anchorTurn - rows[0].anchorTurn > gap then 1 else 0) + Breaks(rows[1..], gap)
  }

  lemma {:induction false} BreaksAfter(rows: seq<Candidate>, gap: int)
    requires rows != []
    ensures var k := RunEnd(rows, gap);
            Breaks(rows, gap) == if k == |rows| then 0 else 1 + Breaks(rows[k..], gap)
  {
    if |rows| > 1 && rows[1].anchorTurn - rows[0].anchorTurn <= gap {
      var k := RunEnd(rows[1..], gap);
      BreaksAfter(rows[1..], gap);
      assert rows[1..][k..] == rows[1 + k..];
    }
  }

  lemma {:induction false} RunCount(rows: seq<Candidate>, gap: int)
    ensures |Runs(rows, gap)| == if rows == [] then 0 else 1 + Breaks(rows, gap)
    decreases |rows|
  {
    if rows == [] {
    } else {
      BreaksAfter(rows, gap);
      RunCount(rows[RunEnd(rows, gap)..], gap);
    }
  }

  lemma {:induction false} BreaksFall(rows: seq<Candidate>, gap: int, wider: int)
    requires gap <= wider
    ensures Breaks(rows, wider) <= Breaks(rows, gap)
  {
    if |rows| > 1 { BreaksFall(rows[1..], gap, wider); }
  }

  /** A wider gap never makes more runs. */
  lemma RunsFall(rows: seq<Candidate>, gap: int, wider: int)
    requires gap <= wider
    ensures RunTotal(rows, wider) <= RunTotal(rows, gap)
  {
    RunCount(rows, gap);
    RunCount(rows, wider);
    BreaksFall(rows, gap, wider);
  }

  predicate Chained(run: seq<Candidate>, gap: int) {
    forall i | 0 < i < |run| :: run[i].anchorTurn - run[i - 1].anchorTurn <= gap
  }

  /** The second stretch follows the first at a distance above `gap`. */
  predicate Apart(first: seq<Candidate>, second: seq<Candidate>, gap: int) {
    first != [] && second != [] && second[0].anchorTurn - first[|first| - 1].anchorTurn > gap
  }

  /** What makes a list of stretches the gap runs of `rows`: it is a split, chained inside and
      apart between. */
  ghost predicate IsRunSplit(rows: seq<Candidate>, gap: int, runs: seq<seq<Candidate>>) {
    && Concat(runs) == rows
    && (forall r | r in runs :: r != [] && Chained(r, gap))
    && (forall i, j | 0 <= i < |runs| && j == i + 1 && j < |runs| :: Apart(runs[i], runs[j], gap))
  }

  lemma SplitPrepend(first: seq<Candidate>, rows: seq<Candidate>, gap: int, runs: seq<seq<Candidate>>)
    requires IsRunSplit(rows, gap, runs) && first != [] && Chained(first, gap)
    requires runs != [] ==> Apart(first, runs[0], gap)
    ensures IsRunSplit(first + rows, gap, [first] + runs)
  {
    assert ([first] + runs)[1..] == runs;
  }

  lemma {:induction false} RunsSplit(rows: seq<Candidate>, gap: int)
    ensures IsRunSplit(rows, gap, Runs(rows, gap))
    decreases |rows|
  {
    if rows == [] {
    } else {
      var k := RunEnd(rows, gap);
      RunsSplit(rows[k..], gap);
      SplitPrepend(rows[..k], rows[k..], gap, Runs(rows[k..], gap));
      assert rows == rows[..k] + rows[k..];
    }
  }

  lemma {:induction false} FirstRunEnds(first: seq<Candidate>, rest: seq<Candidate>, gap: int)
    requires first != [] && Chained(first, gap) && (rest == [] || Apart(first, rest, gap))
    ensures RunEnd(first + rest, gap) == |first|
  {
    var all := first + rest;
    var k := RunEnd(all, gap);
    assert forall i | 0 <= i < |first| :: all[i] == first[i];
    assert rest != [] ==> all[|first|] == rest[0];
  }

  /** Taking off the first run of a split is what `Runs` does. */
  lemma SplitTail(rows: seq<Candidate>, gap: int, runs: seq<seq<Candidate>>)
    requires IsRunSplit(rows, gap, runs) && runs != []
    ensures IsRunSplit(Concat(runs[1..]), gap, runs[1..])
    ensures rows != [] && RunEnd(rows, gap) == |runs[0]| <= |rows|
    ensures rows[..|runs[0]|] == runs[0] && rows[|runs[0]|..] == Concat(runs[1..])
  {
    var first, rest := runs[0], runs[1..];
    assert first in runs && rows == first + Concat(rest);
    if rest != [] {
      assert Apart(runs[0], runs[1], gap);
      assert Concat(rest) == rest[0] + Concat(rest[1..]);
    }
    FirstRunEnds(first, Concat(rest), gap);
    forall r | r in rest ensures r in runs {}
    forall i, j | 0 <= i < |rest| && j == i + 1 && j < |rest| ensures Apart(rest[i], rest[j], gap) {
      assert Apart(runs[i + 1], runs[j + 1], gap);
    }
  }

  /** Only one split has these properties. */
  lemma {:induction false} RunsUnique(rows: seq<Candidate>, gap: int, runs: seq<seq<Candidate>>)
    requires IsRunSplit(rows, gap, runs)
    ensures runs == Runs(rows, gap)
    decreases |runs|
  {
    if runs == [] {
    } else {
      SplitTail(rows, gap, runs);
      RunsUnique(Concat(runs[1..]), gap, runs[1..]);
    }
  }

  // ---- Segments: greedy pieces of a run spanning less than `stride` turns ----

  /** Past the first row, everything before `to` is less than `stride` turns after `from`. */
  predicate Within(run: seq<Candidate>, stride: int, from: nat, to: nat)
    requires from < |run| && to <= |run|
  {
    forall j | from < j < to :: run[j].anchorTurn - run[from].anchorTurn < stride
  }

  /** The rows from `from` up to `to` are one greedy segment. */
  predicate IsSegment(run: seq<Candidate>, stride: int, from: nat, to: nat) {
    && from < to <= |run|
    && Within(run, stride, from, to)
    && (to < |run| ==> run[to].anchorTurn - run[from].anchorTurn >= stride)
  }

  /** Where the segment that starts at `from`, known to reach `k`, ends. */
  function SegmentEnd(run: seq<Candidate>, stride: int, from: nat, k: nat): (end: nat)
    requires from < k <= |run| && Within(run, stride, from, k)
    ensures k <= end <= |run| && IsSegment(run, stride, from, end)
    decreases |run| - k
  {
    if k == |run| || run[k].anchorTurn - run[from].anchorTurn >= stride then k
    else SegmentEnd(run, stride, from, k + 1)
  }

  /** How many greedy segments the rows from `from` on make. */
  function SegmentCount(run: seq<Candidate>, stride: int, from: nat): nat
    requires from <= |run|
    decreases |run| - from
  {
    if from == |run| then 0 else 1 + SegmentCount(run, stride, SegmentEnd(run, stride, from, from + 1))
  }

  /** Rows sharing a part are less than `stride` turns apart. */
  ghost predicate Parted(run: seq<Candidate>, stride: int, parts: seq<nat>) {
    && |parts| == |run|
    && forall i, j | 0 <= i < |run| && 0 <= j < |run| && parts[i] == parts[j] ::
         run[i].anchorTurn - run[j].anchorTurn < stride
  }

  /** Which greedy segment, counted from `from`, a row is in. */
  function SegmentOf(run: seq<Candidate>, stride: int, from: nat, i: nat): (part: nat)
    requires from <= i < |run|
    ensures part < SegmentCount(run, stride, from)
    decreases |run| - from
  {
    var end := SegmentEnd(run, stride, from, from + 1);
    if i < end then 0 else 1 + SegmentOf(run, stride, end, i)
  }

  lemma {:induction false} SameSegment(run: seq<Candidate>, stride: int, from: nat, i: nat, j: nat)
    requires stride >= 1 && InTurnOrder(run) && from <= i < |run| && from <= j < |run|
    requires SegmentOf(run, stride, from, i) == SegmentOf(run, stride, from, j)
    ensures run[i].anchorTurn - run[j].anchorTurn < stride
    decreases |run| - from
  {
    var end := SegmentEnd(run, stride, from, from + 1);
    if i < end {
      assert run[from].anchorTurn <= run[j].anchorTurn;
    } else {
      SameSegment(run, stride, end, i, j);
    }
  }

  /** The greedy segments are themselves such an assignment. */
  lemma GreedyParts(run: seq<Candidate>, stride: int) returns (parts: seq<nat>)
    requires stride >= 1 && InTurnOrder(run)
    ensures Parted(run, stride, parts)
    ensures forall i | 0 <= i < |run| :: parts[i] < SegmentCount(run, stride, 0)
  {
    parts := seq(|run|, i requires 0 <= i < |run| => SegmentOf(run, stride, 0, i));
    forall i, j | 0 <= i < |run| && 0 <= j < |run| && parts[i] == parts[j]
      ensures run[i].anchorTurn - run[j].anchorTurn < stride
    {
      SameSegment(run, stride, 0, i, j);
    }
  }

  /** No assignment of rows to parts, contiguous or not, uses fewer parts than the greedy one. */
  lemma {:induction false} GreedyIsFewest(run: seq<Candidate>, stride: int, parts: seq<nat>, from: nat, used: set<nat>)
    requires stride >= 1 && InTurnOrder(run) && Parted(run, stride, parts) && from <= |run|
    requires forall i | from <= i < |run| :: parts[i] in used
    ensures SegmentCount(run, stride, from) <= |used|
    decreases |run| - from
  {
    if from < |run| {
      var end := SegmentEnd(run, stride, from, from + 1);
      forall i | end <= i < |run| ensures parts[i] in used - {parts[from]} {
        assert run[end].anchorTurn <= run[i].anchorTurn;
      }
      GreedyIsFewest(run, stride, parts, end, used - {parts[from]});
    }
  }

  function UpTo(n: nat): (r: set<nat>)
    ensures |r| == n && forall i: nat {:trigger i in r} :: i in r <==> i < n
  {
    if n == 0 then {} else UpTo(n - 1) + {n - 1}
  }

  /** A longer stride never needs more segments. */
  lemma SegmentsFall(run: seq<Candidate>, stride: int, longer: int)
    requires 1 <= stride <= longer && InTurnOrder(run)
    ensures SegmentCount(run, longer, 0) <= SegmentCount(run, stride, 0)
  {
    var parts := GreedyParts(run, stride);
    GreedyIsFewest(run, longer, parts, 0, UpTo(SegmentCount(run, stride, 0)));
  }

  /** A stride beyond the run's span leaves one segment. */
  lemma OneSegment(run: seq<Candidate>, stride: int)
    requires run != [] && InTurnOrder(run) && run[|run| - 1].anchorTurn - run[0].anchorTurn < stride
    ensures SegmentCount(run, stride, 0) == 1
  {
    assert SegmentEnd(run, stride, 0, 1) == |run|;
  }
}
