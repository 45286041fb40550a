/** `PromptOverlay`: checked replacements over one turn's text, rendered span by span. */
module Overlay {
  import opened Common

  /** One vocabulary replacement: the scalars from `start` up to `end` of a turn. */
  datatype Entry = Entry(turn: int, start: int, end: int, sourceDigest: string, replacement: string)

  datatype OverlayError = InvalidRange | StaleSource | OutsideTurn

  // ---- Which transports are accepted ----

  /** `printable` stands for the byte-length and character-category checks on a replacement. */
  ghost predicate InRange(turns: seq<string>, printable: string -> bool, e: Entry) {
    && IsSha(e.sourceDigest) && e.replacement != [] && printable(e.replacement)
    && 0 <= e.turn < |turns| && 0 <= e.start < e.end <= |turns[e.turn]|
  }

  ghost predicate Fresh(turns: seq<string>, digest: string -> string, e: Entry)
    requires 0 <= e.turn < |turns| && 0 <= e.start < e.end <= |turns[e.turn]|
  {
    digest(turns[e.turn][e.start..e.end]) == e.sourceDigest
  }

  /** `e` comes wholly before `f`. */
  ghost predicate Precedes(e: Entry, f: Entry) {
    e.turn < f.turn || (e.turn == f.turn && e.end <= f.start)
  }

  ghost predicate Acceptable(turns: seq<string>, printable: string -> bool, digest: string -> string,
                             entries: seq<Entry>) {
    && (forall i | 0 <= i < |entries| :: InRange(turns, printable, entries[i]) && Fresh(turns, digest, entries[i]))
    && (forall i, j | 0 <= i < j < |entries| :: Precedes(entries[i], entries[j]))
  }

  function OfTurn(entries: seq<Entry>, turn: int): seq<Entry> {
    if entries == [] then []
    else
      var n := |entries| - 1;
      OfTurn(entries[..n], turn) + if entries[n].turn == turn then [entries[n]] else []
  }

  function Replacements(byTurn: map<int, seq<Entry>>, turn: int): seq<Entry> {
    if turn in byTurn then byTurn[turn] else []
  }

  ghost predicate Filed(byTurn: map<int, seq<Entry>>, entries: seq<Entry>) {
    forall turn :: Replacements(byTurn, turn) == OfTurn(entries, turn)
  }

  /** The first entry that is not acceptable, and why: its range or its place behind the one before
      it, or else its source. */
  ghost predicate StopsAt(turns: seq<string>, printable: string -> bool, digest: string -> string, entries: seq<Entry>,
                          i: nat, error: OverlayError)
    requires i < |entries|
  {
    && Acceptable(turns, printable, digest, entries[..i])
    && if InRange(turns, printable, entries[i]) && (i > 0 ==> Precedes(entries[i - 1], entries[i])) then
         error == StaleSource && !Fresh(turns, digest, entries[i])
       else error == InvalidRange
  }

  /** `position > previous`, on tuples. */
  predicate Rises(previous: (int, int, int), position: (int, int, int)) {
    || previous.0 < position.0
    || (previous.0 == position.0
        && (previous.1 < position.1 || (previous.1 == position.1 && previous.2 < position.2)))
  }

  lemma FiledNext(byTurn: map<int, seq<Entry>>, entries: seq<Entry>, e: Entry)
    requires Filed(byTurn, entries)
    ensures Filed(byTurn[e.turn := Replacements(byTurn, e.turn) + [e]], entries + [e])
  {
    assert (entries + [e])[..|entries|] == entries;
    forall turn ensures OfTurn(entries + [e], turn) == OfTurn(entries, turn) + if e.turn == turn then [e] else [] {}
  }

  /** Comparing neighbours is enough to order all pairs. */
  lemma AcceptOne(turns: seq<string>, printable: string -> bool, digest: string -> string, entries: seq<Entry>,
                  e: Entry)
    requires Acceptable(turns, printable, digest, entries)
    requires InRange(turns, printable, e) && Fresh(turns, digest, e)
    requires entries != [] ==> Precedes(entries[|entries| - 1], e)
    ensures Acceptable(turns, printable, digest, entries + [e])
  {
    forall i | 0 <= i < |entries| ensures Precedes(entries[i], e) {
      var last := entries[|entries| - 1];
      assert i < |entries| - 1 ==> Precedes(entries[i], last);
      assert InRange(turns, printable, entries[i]) && InRange(turns, printable, last);
    }
  }

  /** The checks on one entry, against the position of the entry before it. */
  method CheckEntry(turns: seq<string>, printable: string -> bool, previous: Option<(int, int, int)>, e: Entry)
    returns (valid: bool)
    requires previous.Some? ==> previous.value.1 < previous.value.2
    ensures valid <==>
      && InRange(turns, printable, e)
      && (previous.Some? ==>
            previous.value.0 < e.turn || (previous.value.0 == e.turn && previous.value.2 <= e.start))
  {
    var digest := CheckSha(e.sourceDigest);
    valid := digest && e.replacement != [] && printable(e.replacement)
      && 0 <= e.turn < |turns| && 0 <= e.start < e.end <= |turns[e.turn]|
      && (previous.None? || Rises(previous.value, (e.turn, e.start, e.end)))
      && !(previous.Some? && previous.value.0 == e.turn && e.start < previous.value.2);
  }

  /** `from_transport`: accepts exactly the in-range, fresh, ordered and disjoint entries, and
      files them by turn in transport order. */
  method FromTransport(turns: seq<string>, printable: string -> bool, digest: string -> string, entries: seq<Entry>)
    returns (r: Result<map<int, seq<Entry>>, OverlayError>)
    ensures r.Ok? <==> Acceptable(turns, printable, digest, entries)
    ensures r.Ok? ==> Filed(r.value, entries)
    ensures r.Refused? ==> exists i: nat :: i < |entries| && StopsAt(turns, printable, digest, entries, i, r.error)
  {
    var byTurn: map<int, seq<Entry>> := map[];
    var previous: Option<(int, int, int)> := None;
    for i := 0 to |entries|
      invariant i > 0 ==> InRange(turns, printable, entries[i - 1])
      invariant previous
        == if i == 0 then None else Some((entries[i - 1].turn, entries[i - 1].start, entries[i - 1].end))
      invariant Acceptable(turns, printable, digest, entries[..i])
      invariant Filed(byTurn, entries[..i])
    {
      var e := entries[i];
      var valid := CheckEntry(turns, printable, previous, e);
      if !valid {
        assert StopsAt(turns, printable, digest, entries, i, InvalidRange);
        return Refused(InvalidRange);
      }
      if digest(turns[e.turn][e.start..e.end]) != e.sourceDigest {
        assert StopsAt(turns, printable, digest, entries, i, StaleSource);
        return Refused(StaleSource);
      }
      PrefixNext(entries, i);
      AcceptOne(turns, printable, digest, entries[..i], e);
      FiledNext(byTurn, entries[..i], e);
      byTurn := byTurn[e.turn := Replacements(byTurn, e.turn) + [e]];
      previous := Some((e.turn, e.start, e.end));
    }
    assert entries[..|entries|] == entries;
    r := Ok(byTurn);
  }

  // ---- One turn: the rendering, character by character ----

  /** What an accepted overlay holds for a turn of `length` scalars. */
  ghost predicate Disjoint(reps: seq<Entry>, length: int) {
    && (forall i | 0 <= i < |reps| :: 0 <= reps[i].start < reps[i].end <= length)
    && (forall i, j | 0 <= i < j < |reps| :: reps[i].end <= reps[j].start)
  }

  lemma DisjointAppend(reps: seq<Entry>, e: Entry, length: nat)
    requires Disjoint(reps, length) && 0 <= e.start < e.end <= length && forall r | r in reps :: r.end <= e.start
    ensures Disjoint(reps + [e], length)
  {
    forall k | 0 <= k < |reps| ensures reps[k].end <= e.start {
      assert reps[k] in reps;
    }
  }

  lemma {:induction false} AcceptedIsDisjoint(turns: seq<string>, printable: string -> bool, digest: string -> string,
                                              entries: seq<Entry>, turn: int)
    requires Acceptable(turns, printable, digest, entries) && 0 <= turn < |turns|
    ensures Disjoint(OfTurn(entries, turn), |turns[turn]|)
    ensures forall r | r in OfTurn(entries, turn) :: r in entries && r.turn == turn
  {
    if entries == [] {
    } else {
      var n := |entries| - 1;
      AcceptedIsDisjoint(turns, printable, digest, entries[..n], turn);
      if entries[n].turn == turn {
        assert InRange(turns, printable, entries[n]);
        forall r | r in OfTurn(entries[..n], turn) ensures r.end <= entries[n].start {
          var i :| 0 <= i < n && entries[i] == r;
          assert Precedes(entries[i], entries[n]);
        }
        DisjointAppend(OfTurn(entries[..n], turn), entries[n], |turns[turn]|);
      }
    }
  }

  /** The span holds the whole replacement. */
  predicate Inside(r: Entry, a: int, c: int) {
    a <= r.start && r.end <= c
  }

  /** The replacement, wholly inside the span, that covers position `i`. */
  function Covering(reps: seq<Entry>, a: int, c: int, i: int): Option<Entry> {
    if reps == [] then None
    else if Inside(reps[0], a, c) && reps[0].start <= i < reps[0].end then Some(reps[0])
    else Covering(reps[1..], a, c, i)
  }

  /** What position `i` contributes: its own scalar, a whole replacement, or nothing. */
  function Piece(source: string, reps: seq<Entry>, a: int, c: int, i: int): string
    requires 0 <= i < |source|
  {
    match Covering(reps, a, c, i)
    case None => [source[i]]
    case Some(r) => if r.start == i then r.replacement else ""
  }

  /** The pieces from `i` up to `j` of the span from `a` to `c`. */
  function Rendered(source: string, reps: seq<Entry>, a: int, c: int, i: int, j: int): string
    requires 0 <= i <= j <= |source|
    decreases j - i
  {
    if i == j then "" else Rendered(source, reps, a, c, i, j - 1) + Piece(source, reps, a, c, j - 1)
  }

  lemma {:induction false} RenderedSplits(source: string, reps: seq<Entry>, a: int, c: int, i: int, m: int, j: int)
    requires 0 <= i <= m <= j <= |source|
    ensures Rendered(source, reps, a, c, i, j)
         == Rendered(source, reps, a, c, i, m) + Rendered(source, reps, a, c, m, j)
    decreases j - m
  {
    if m < j {
      RenderedSplits(source, reps, a, c, i, m, j - 1);
      AppendAssociates(Rendered(source, reps, a, c, i, m), Rendered(source, reps, a, c, m, j - 1),
                       Piece(source, reps, a, c, j - 1));
    } else {
      AppendNothing(Rendered(source, reps, a, c, i, m));
    }
  }

  lemma {:induction false} RenderedRaw(source: string, reps: seq<Entry>, a: int, c: int, i: int, j: int)
    requires 0 <= i <= j <= |source| && forall k | i <= k < j :: Covering(reps, a, c, k) == None
    ensures Rendered(source, reps, a, c, i, j) == source[i..j]
    decreases j - i
  {
    if i < j {
      RenderedRaw(source, reps, a, c, i, j - 1);
      assert source[i..j] == source[i..j - 1] + [source[j - 1]];
    }
  }

  lemma {:induction false} RenderedPhrase(source: string, reps: seq<Entry>, a: int, c: int, r: Entry, j: int)
    requires 0 <= r.start < j <= r.end <= |source|
    requires forall k | r.start <= k < r.end :: Covering(reps, a, c, k) == Some(r)
    ensures Rendered(source, reps, a, c, r.start, j) == r.replacement
    decreases j
  {
    if j == r.start + 1 {
      AppendNothing(r.replacement);
    } else {
      RenderedPhrase(source, reps, a, c, r, j - 1);
      AppendNothing(r.replacement);
    }
  }

  /** Disjoint replacements: the covering one is the one whose range holds the position. */
  lemma {:induction false} CoveringIs(reps: seq<Entry>, length: int, a: int, c: int, i: int)
    requires Disjoint(reps, length)
    ensures forall k | 0 <= k < |reps| && Inside(reps[k], a, c) && reps[k].start <= i < reps[k].end ::
      Covering(reps, a, c, i) == Some(reps[k])
    ensures Covering(reps, a, c, i).Some? ==>
      var r := Covering(reps, a, c, i).value; r in reps && Inside(r, a, c) && r.start <= i < r.end
  {
    if reps == [] {
    } else {
      var rest := reps[1..];
      assert forall k | 0 <= k < |rest| :: rest[k] == reps[k + 1];
      CoveringIs(rest, length, a, c, i);
    }
  }

  // ---- The loop, against the character-level rendering ----

  /** The loop over the turn's replacements, from the `k`-th on. */
  function Walk(source: string, reps: seq<Entry>, a: int, c: int, k: nat, cursor: int): string
    requires Disjoint(reps, |source|) && k <= |reps| && 0 <= a <= cursor <= c <= |source|
    requires forall m | k <= m < |reps| && Inside(reps[m], a, c) :: cursor <= reps[m].start
    decreases |reps| - k
  {
    if k == |reps| then source[cursor..c]
    else if !Inside(reps[k], a, c) then Walk(source, reps, a, c, k + 1, cursor)
    else source[cursor..reps[k].start] + reps[k].replacement + Walk(source, reps, a, c, k + 1, reps[k].end)
  }

  lemma NoneCovers(source: string, reps: seq<Entry>, a: int, c: int, k: nat, cursor: int, to: int)
    requires Disjoint(reps, |source|) && k <= |reps| && 0 <= a <= cursor <= to <= c <= |source|
    requires forall m | k <= m < |reps| && Inside(reps[m], a, c) :: to <= reps[m].start
    requires forall m | 0 <= m < k && Inside(reps[m], a, c) :: reps[m].end <= cursor
    ensures forall i | cursor <= i < to :: Covering(reps, a, c, i) == None
  {
    forall i | cursor <= i < to ensures Covering(reps, a, c, i) == None {
      CoveringIs(reps, |source|, a, c, i);
    }
  }

  /** The fast walk computes the character-level rendering. */
  lemma {:induction false} WalkIsRendered(source: string, reps: seq<Entry>, a: int, c: int, k: nat, cursor: int)
    requires Disjoint(reps, |source|) && k <= |reps| && 0 <= a <= cursor <= c <= |source|
    requires forall m | k <= m < |reps| && Inside(reps[m], a, c) :: cursor <= reps[m].start
    requires forall m | 0 <= m < k && Inside(reps[m], a, c) :: reps[m].end <= cursor
    ensures Walk(source, reps, a, c, k, cursor) == Rendered(source, reps, a, c, cursor, c)
    decreases |reps| - k
  {
    if k == |reps| {
      NoneCovers(source, reps, a, c, k, cursor, c);
      RenderedRaw(source, reps, a, c, cursor, c);
    } else if !Inside(reps[k], a, c) {
      WalkIsRendered(source, reps, a, c, k + 1, cursor);
    } else {
      var r := reps[k];
      NoneCovers(source, reps, a, c, k, cursor, r.start);
      RenderedRaw(source, reps, a, c, cursor, r.start);
      forall i | r.start <= i < r.end ensures Covering(reps, a, c, i) == Some(r) {
        CoveringIs(reps, |source|, a, c, i);
      }
      RenderedPhrase(source, reps, a, c, r, r.end);
      RenderedSplits(source, reps, a, c, cursor, r.start, r.end);
      RenderedSplits(source, reps, a, c, cursor, r.end, c);
      WalkIsRendered(source, reps, a, c, k + 1, r.end);
    }
  }

  /** A replacement whose own range lies in the span is spelled there, once and whole. */
  lemma ReplacementIsSpelled(source: string, reps: seq<Entry>, a: int, c: int, k: nat)
    requires Disjoint(reps, |source|) && k < |reps| && 0 <= a <= reps[k].start && reps[k].end <= c <= |source|
    ensures Rendered(source, reps, a, c, a, c)
         == Rendered(source, reps, a, c, a, reps[k].start) + reps[k].replacement
          + Rendered(source, reps, a, c, reps[k].end, c)
  {
    var r := reps[k];
    forall i | r.start <= i < r.end ensures Covering(reps, a, c, i) == Some(r) {
      CoveringIs(reps, |source|, a, c, i);
    }
    RenderedPhrase(source, reps, a, c, r, r.end);
    RenderedSplits(source, reps, a, c, a, r.start, r.end);
    RenderedSplits(source, reps, a, c, a, r.end, c);
  }

  /** A stretch that no replacement of the span touches is the source's own; one that the span cuts
      in two is not of the span. */
  lemma RestIsSource(source: string, reps: seq<Entry>, a: int, c: int, i: int, j: int)
    requires Disjoint(reps, |source|) && 0 <= a <= i <= j <= c <= |source|
    requires forall k | 0 <= k < |reps| && a <= reps[k].start && reps[k].end <= c ::
      reps[k].end <= i || j <= reps[k].start
    ensures Rendered(source, reps, a, c, i, j) == source[i..j]
  {
    forall h | i <= h < j ensures Covering(reps, a, c, h) == None {
      CoveringIs(reps, |source|, a, c, h);
    }
    RenderedRaw(source, reps, a, c, i, j);
  }

  /** `text`. */
  method Text(source: string, reps: seq<Entry>, start: int, end: int) returns (r: Result<string, OverlayError>)
    requires Disjoint(reps, |source|)
    ensures r.Refused? <==> !(0 <= start <= end <= |source|)
    ensures r.Refused? ==> r.error == OutsideTurn
    ensures r.Ok? ==> r.value == Rendered(source, reps, start, end, start, end)
  {
    if !(0 <= start <= end <= |source|) {
      return Refused(OutsideTurn);
    }
    var cursor := start;
    var output := "";
    AppendNothing(Walk(source, reps, start, end, 0, start));
    for k := 0 to |reps|
      invariant start <= cursor <= end
      invariant forall m | k <= m < |reps| && Inside(reps[m], start, end) :: cursor <= reps[m].start
      invariant output + Walk(source, reps, start, end, k, cursor) == Walk(source, reps, start, end, 0, start)
    {
      var item := reps[k];
      if item.start < start || item.end > end {
        continue;
      }
      var rest := Walk(source, reps, start, end, k + 1, item.end);
      AppendAssociates(output, source[cursor..item.start] + item.replacement, rest);
      AppendAssociates(output, source[cursor..item.start], item.replacement);
      output := output + source[cursor..item.start] + item.replacement;
      cursor := item.end;
    }
    WalkIsRendered(source, reps, start, end, 0, start);
    r := Ok(output + source[cursor..end]);
  }

  // ---- Spans compose ----

  /** `r` lies inside the span and across `b`. */
  ghost predicate Straddles(r: Entry, a: int, b: int, c: int) {
    Inside(r, a, c) && r.start < b < r.end
  }

  lemma {:induction false} CoveringNarrows(reps: seq<Entry>, a: int, b: int, c: int, i: int)
    requires a <= b <= c && forall k | 0 <= k < |reps| :: !Straddles(reps[k], a, b, c)
    ensures a <= i < b ==> Covering(reps, a, c, i) == Covering(reps, a, b, i)
    ensures b <= i < c ==> Covering(reps, a, c, i) == Covering(reps, b, c, i)
  {
    if reps == [] {
    } else {
      assert forall k | 0 <= k < |reps[1..]| :: reps[1..][k] == reps[k + 1];
      assert !Straddles(reps[0], a, b, c);
      CoveringNarrows(reps[1..], a, b, c, i);
    }
  }

  lemma {:induction false} RenderedNarrows(source: string, reps: seq<Entry>, a: int, b: int, c: int, i: int, j: int)
    requires 0 <= a <= b <= c <= |source| && forall k | 0 <= k < |reps| :: !Straddles(reps[k], a, b, c)
    requires a <= i <= j <= c
    ensures j <= b ==> Rendered(source, reps, a, c, i, j) == Rendered(source, reps, a, b, i, j)
    ensures b <= i ==> Rendered(source, reps, a, c, i, j) == Rendered(source, reps, b, c, i, j)
    decreases j - i
  {
    if i < j {
      RenderedNarrows(source, reps, a, b, c, i, j - 1);
      CoveringNarrows(reps, a, b, c, j - 1);
    }
  }

  /** Rendering a span is rendering its two halves, unless a replacement is cut in two. */
  lemma TextComposes(source: string, reps: seq<Entry>, a: int, b: int, c: int)
    requires 0 <= a <= b <= c <= |source| && forall k | 0 <= k < |reps| :: !Straddles(reps[k], a, b, c)
    ensures Rendered(source, reps, a, c, a, c)
         == Rendered(source, reps, a, b, a, b) + Rendered(source, reps, b, c, b, c)
  {
    RenderedSplits(source, reps, a, c, a, b, c);
    RenderedNarrows(source, reps, a, b, c, a, b);
    RenderedNarrows(source, reps, a, b, c, b, c);
  }

  // ---- Length ----

  /** What the replacements from the `k`-th on add to the length of a span. */
  function Growth(reps: seq<Entry>, a: int, c: int, k: nat): int
    requires k <= |reps|
    decreases |reps| - k
  {
    if k == |reps| then 0
    else
      (if Inside(reps[k], a, c) then |reps[k].replacement| - (reps[k].end - reps[k].start) else 0)
      + Growth(reps, a, c, k + 1)
  }

  lemma {:induction false} WalkLength(source: string, reps: seq<Entry>, a: int, c: int, k: nat, cursor: int)
    requires Disjoint(reps, |source|) && k <= |reps| && 0 <= a <= cursor <= c <= |source|
    requires forall m | k <= m < |reps| && Inside(reps[m], a, c) :: cursor <= reps[m].start
    ensures |Walk(source, reps, a, c, k, cursor)| == (c - cursor) + Growth(reps, a, c, k)
    decreases |reps| - k
  {
    if k < |reps| {
      WalkLength(source, reps, a, c, k + 1, if Inside(reps[k], a, c) then reps[k].end else cursor);
    }
  }

  /** The output is as long as the span, adjusted by exactly the replacements wholly inside it. */
  lemma TextLength(source: string, reps: seq<Entry>, a: int, c: int)
    requires Disjoint(reps, |source|) && 0 <= a <= c <= |source|
    ensures |Rendered(source, reps, a, c, a, c)| == (c - a) + Growth(reps, a, c, 0)
  {
    WalkLength(source, reps, a, c, 0, a);
    WalkIsRendered(source, reps, a, c, 0, a);
  }
}
