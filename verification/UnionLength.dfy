/** `union_seconds`: the sweep that measures distinct audio. Times are integer ticks: any finite
    set of floats is a set of multiples of one common power of two. */
module UnionLength {
  import opened Common

  datatype Segment = Segment(start: int, end: int)

  predicate At(lo: int, t: int, hi: int) {
    lo <= t < hi
  }

  /** The ticks from `lo` up to `hi`. */
  function Range(lo: int, hi: int): set<int> {
    set t | lo <= t < hi && At(lo, t, hi)
  }

  lemma {:induction false} RangeSize(lo: int, hi: int)
    ensures |Range(lo, hi)| == if lo < hi then hi - lo else 0
    decreases hi - lo
  {
    if lo < hi {
      RangeSize(lo, hi - 1);
      assert Range(lo, hi) == Range(lo, hi - 1) + {hi - 1};
    } else {
      assert Range(lo, hi) == {};
    }
  }

  function Ticks(s: Segment): set<int> {
    Range(s.start, s.end)
  }

  /** Every tick some segment covers; its size is the measure of the union. */
  function Covered(segs: seq<Segment>): set<int> {
    if segs == [] then {} else Covered(segs[..|segs| - 1]) + Ticks(segs[|segs| - 1])
  }

  lemma {:induction false} CoveredMeans(segs: seq<Segment>)
    ensures forall t :: t in Covered(segs) <==> exists s :: s in segs && At(s.start, t, s.end)
  {
    if segs == [] {
    } else {
      var n := |segs| - 1;
      CoveredMeans(segs[..n]);
      assert segs == segs[..n] + [segs[n]];
    }
  }

  /** The measure does not depend on the order, or on repetitions. */
  lemma SameCoverage(a: seq<Segment>, b: seq<Segment>)
    requires Elements(a) == Elements(b)
    ensures Covered(a) == Covered(b)
  {
    CoveredMeans(a);
    CoveredMeans(b);
    assert forall s :: s in a <==> s in Elements(a);
    assert forall s :: s in b <==> s in Elements(b);
  }

  /** What the cursor knows: it bounds everything covered, and a covering segment ends there. */
  ghost predicate Swept(done: seq<Segment>, cursor: Option<int>) {
    match cursor
    case None => Covered(done) == {}
    case Some(c) =>
      && (forall t | t in Covered(done) :: t < c)
      && exists s :: s in done && s.end == c && s.start < c
  }

  /** Where the new part of a segment begins. */
  function NewFrom(cursor: Option<int>, s: Segment): int {
    if cursor.Some? && cursor.value > s.start then cursor.value else s.start
  }

  /** With starts in order, exactly what lies past the cursor is new. */
  lemma NewTicks(done: seq<Segment>, cursor: Option<int>, s: Segment)
    requires Swept(done, cursor) && forall d | d in done :: d.start <= s.start
    ensures Covered(done) + Ticks(s) == Covered(done) + Range(NewFrom(cursor, s), s.end)
    ensures Covered(done) !! Range(NewFrom(cursor, s), s.end)
  {
    var lo := NewFrom(cursor, s);
    forall t | s.start <= t < lo ensures t in Covered(done) {
      var last :| last in done && last.end == cursor.value && last.start < cursor.value;
      assert At(last.start, t, last.end);
      CoveredMeans(done);
    }
  }

  lemma CoveredAppend(done: seq<Segment>, s: Segment)
    ensures Covered(done + [s]) == Covered(done) + Ticks(s)
  {
    assert (done + [s])[..|done|] == done;
  }

  /** One turn of the sweep. */
  lemma SweepOne(done: seq<Segment>, cursor: Option<int>, s: Segment)
    requires Swept(done, cursor) && forall d | d in done :: d.start <= s.start
    ensures var lo := NewFrom(cursor, s);
            && |Covered(done + [s])| == |Covered(done)| + (if s.end > lo then s.end - lo else 0)
            && Swept(done + [s], if s.end > lo then Some(s.end) else cursor)
  {
    var lo := NewFrom(cursor, s);
    CoveredAppend(done, s);
    NewTicks(done, cursor, s);
    RangeSize(lo, s.end);
    assert Range(lo, s.end) == {} || s.end > lo;
    assert forall d | d in done :: d in done + [s];
    assert s in done + [s];
  }

  predicate StartsRise(segs: seq<Segment>) {
    forall i, j | 0 <= i < j < |segs| :: segs[i].start <= segs[j].start
  }

  lemma SweepNext(sorted: seq<Segment>, i: nat, cursor: Option<int>)
    requires StartsRise(sorted) && i < |sorted| && Swept(sorted[..i], cursor)
    ensures var s := sorted[i];
            var lo := NewFrom(cursor, s);
            && |Covered(sorted[..i + 1])| == |Covered(sorted[..i])| + (if s.end > lo then s.end - lo else 0)
            && Swept(sorted[..i + 1], if s.end > lo then Some(s.end) else cursor)
  {
    SweepOne(sorted[..i], cursor, sorted[i]);
    PrefixNext(sorted, i);
  }

  method SortByStart(segs: seq<Segment>) returns (sorted: seq<Segment>)
    ensures StartsRise(sorted) && |Covered(sorted)| == |Covered(segs)|
  {
    var leq := (a: Segment, b: Segment) => a.start <= b.start;
    sorted := SortBy(segs, leq);
    SortBySorted(segs, leq);
    forall i, j | 0 <= i < j < |sorted| ensures sorted[i].start <= sorted[j].start {
      assert leq(sorted[i], sorted[j]);
    }
    SameCoverage(sorted, segs);
  }

  /** `union_seconds`. */
  method UnionSeconds(segs: seq<Segment>) returns (total: int)
    ensures total == |Covered(segs)|
  {
    total := 0;
    var cursor: Option<int> := None;
    var sorted := SortByStart(segs);
    for i := 0 to |sorted|
      invariant total == |Covered(sorted[..i])| && Swept(sorted[..i], cursor)
    {
      var lo, hi := sorted[i].start, sorted[i].end;
      if cursor.Some? && cursor.value > lo {
        lo := cursor.value;
      }
      SweepNext(sorted, i, cursor);
      if hi > lo {
        total := total + (hi - lo);
        cursor := Some(hi);
      }
    }
    assert sorted[..|sorted|] == sorted;
  }

  // ---- Against the summed lengths ----

  function Summed(segs: seq<Segment>): int {
    if segs == [] then 0
    else Summed(segs[..|segs| - 1]) + (segs[|segs| - 1].end - segs[|segs| - 1].start)
  }

  ghost predicate Overlap(a: Segment, b: Segment) {
    exists t :: At(a.start, t, a.end) && At(b.start, t, b.end)
  }

  ghost predicate Disjoint(segs: seq<Segment>) {
    forall i, j | 0 <= i < j < |segs| :: !Overlap(segs[i], segs[j])
  }

  lemma DisjointAppend(rest: seq<Segment>, s: Segment)
    ensures Disjoint(rest + [s]) <==> Disjoint(rest) && forall i | 0 <= i < |rest| :: !Overlap(rest[i], s)
  {
    var segs := rest + [s];
    if Disjoint(segs) {
      assert forall i | 0 <= i < |rest| :: rest[i] == segs[i];
      assert segs[|rest|] == s;
      forall i | 0 <= i < |rest| ensures !Overlap(rest[i], s) {
        assert !Overlap(segs[i], segs[|rest|]);
      }
      forall i, j | 0 <= i < j < |rest| ensures !Overlap(rest[i], rest[j]) {
        assert !Overlap(segs[i], segs[j]);
      }
    }
  }

  lemma SharedTicks(rest: seq<Segment>, s: Segment)
    ensures Covered(rest) * Ticks(s) == {} <==> forall i | 0 <= i < |rest| :: !Overlap(rest[i], s)
  {
    CoveredMeans(rest);
    if i :| 0 <= i < |rest| && Overlap(rest[i], s) {
      var t :| At(rest[i].start, t, rest[i].end) && At(s.start, t, s.end);
      assert t in Covered(rest) * Ticks(s);
    }
    if t :| t in Covered(rest) * Ticks(s) {
      var other :| other in rest && At(other.start, t, other.end);
      var i :| 0 <= i < |rest| && rest[i] == other;
      assert At(s.start, t, s.end);
      assert Overlap(rest[i], s);
    }
  }

  /** The union is at most the sum of the lengths, and equal to it exactly when no two segments
      share positive measure. */
  lemma {:induction false} UnionAgainstSum(segs: seq<Segment>)
    requires forall s | s in segs :: s.start <= s.end
    ensures |Covered(segs)| <= Summed(segs)
    ensures |Covered(segs)| == Summed(segs) <==> Disjoint(segs)
  {
    if segs == [] {
    } else {
      var n := |segs| - 1;
      var rest, s := segs[..n], segs[n];
      assert s in segs && segs == rest + [s];
      UnionAgainstSum(rest);
      RangeSize(s.start, s.end);
      SharedTicks(rest, s);
      assert |Covered(segs)| == |Covered(rest)| + |Ticks(s)| - |Covered(rest) * Ticks(s)|;
      DisjointAppend(rest, s);
    }
  }
}
