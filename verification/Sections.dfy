/** The review sections of a transcript: every turn in one section, every candidate under one. */
module Sections {
  import opened Common
  import opened Evidence
  import opened Decimals
  import Coverage
  import JsonGrammar
  import JsonUnambiguous

  /** A stretch of turns; its ID is `SectionId` of the two ends. */
  datatype Section = Section(start: nat, end: nat, exposed: seq<string>)

  /** `f"turns-{start + 1:04d}-{end:04d}"`. */
  function SectionId(start: nat, end: nat): string {
    "turns-" + (Padded(start + 1) + ("-" + Padded(end)))
  }

  /** IDs of the rows anchored in a stretch of turns, in manifest order. */
  function Anchored(rows: seq<Candidate>, start: int, end: int): seq<string> {
    if rows == [] then []
    else
      var n := |rows| - 1;
      Anchored(rows[..n], start, end) + if start <= rows[n].anchorTurn < end then [rows[n].id] else []
  }

  function EndOf(start: nat, turns: nat, size: nat): nat {
    if start + size < turns then start + size else turns
  }

  function SectionAt(rows: seq<Candidate>, start: nat, turns: nat, size: nat): Section {
    var end := EndOf(start, turns, size);
    Section(start, end, Anchored(rows, start, end))
  }

  /** The sections from turn `start` on. */
  function SectionsFrom(rows: seq<Candidate>, start: nat, turns: nat, size: nat): seq<Section>
    requires size > 0
    decreases turns - start
  {
    if start >= turns then []
    else [SectionAt(rows, start, turns, size)] + SectionsFrom(rows, start + size, turns, size)
  }

  /** What is collected so far, and the sections from `start` on, are all of them. */
  ghost predicate Collected(rows: seq<Candidate>, turns: nat, size: nat, sections: seq<Section>, start: nat,
                            all: seq<Section>)
    requires size > 0
  {
    all == sections + SectionsFrom(rows, start, turns, size)
  }

  /** `_sections`, with none for a size that is not positive. */
  method BuildSections(turns: nat, rows: seq<Candidate>, size: int) returns (r: Option<seq<Section>>)
    ensures r.None? <==> size < 1
    ensures r.Some? ==> r.value == SectionsFrom(rows, 0, turns, size)
  {
    if size < 1 {
      return None;
    }
    var sections: seq<Section> := [];
    var start := 0;
    ghost var all := SectionsFrom(rows, 0, turns, size);
    while start < turns
      invariant Collected(rows, turns, size, sections, start, all)
      decreases turns - start
    {
      sections := sections + [SectionAt(rows, start, turns, size)];
      start := start + size;
    }
    AppendNothing(sections);
    r := Some(sections);
  }

  // ---- Every turn is in one section ----

  /** The sections follow one another without a gap, from the first turn to the last. */
  ghost predicate Consecutive(sections: seq<Section>, start: nat, turns: nat) {
    && (sections == [] <==> start >= turns)
    && (sections != [] ==> sections[0].start == start && sections[|sections| - 1].end == turns)
    && (forall k | 0 <= k < |sections| :: sections[k].start < sections[k].end <= turns)
    && (forall j, k | 0 <= j < |sections| && k == j + 1 && k < |sections| :: sections[k].start == sections[j].end)
  }

  lemma {:induction false} SectionsFollow(rows: seq<Candidate>, start: nat, turns: nat, size: nat)
    requires size > 0
    ensures Consecutive(SectionsFrom(rows, start, turns, size), start, turns)
    decreases turns - start
  {
    if start >= turns {
    } else {
      var first, rest := SectionAt(rows, start, turns, size), SectionsFrom(rows, start + size, turns, size);
      SectionsFollow(rows, start + size, turns, size);
      assert SectionsFrom(rows, start, turns, size) == [first] + rest;
    }
  }

  lemma {:induction false} Rises(sections: seq<Section>, start: nat, turns: nat, j: nat, k: nat)
    requires Consecutive(sections, start, turns) && j < k < |sections|
    ensures sections[j].end <= sections[k].start
  {
    if k == j + 1 {
    } else {
      Rises(sections, start, turns, j, k - 1);
      assert sections[k].start == sections[k - 1].end;
    }
  }

  lemma {:induction false} SectionOf(rows: seq<Candidate>, start: nat, turns: nat, size: nat, turn: nat)
    returns (k: nat)
    requires size > 0 && start <= turn < turns
    ensures var s := SectionsFrom(rows, start, turns, size); k < |s| && s[k].start <= turn < s[k].end
    decreases turns - start
  {
    if turn < start + size {
      k := 0;
    } else {
      k := SectionOf(rows, start + size, turns, size, turn);
      k := k + 1;
    }
  }

  /** Each turn is in exactly one section. */
  lemma TurnInOneSection(rows: seq<Candidate>, turns: nat, size: nat, turn: nat) returns (k: nat)
    requires size > 0 && turn < turns
    ensures var s := SectionsFrom(rows, 0, turns, size);
            && k < |s| && s[k].start <= turn < s[k].end
            && forall j | 0 <= j < |s| && s[j].start <= turn < s[j].end :: j == k
  {
    k := SectionOf(rows, 0, turns, size, turn);
    var s := SectionsFrom(rows, 0, turns, size);
    SectionsFollow(rows, 0, turns, size);
    forall j | 0 <= j < |s| && s[j].start <= turn < s[j].end ensures j == k {
      if j < k { Rises(s, 0, turns, j, k); } else if k < j { Rises(s, 0, turns, k, j); }
    }
  }

  lemma {:induction false} AnchoredMeans(rows: seq<Candidate>, start: int, end: int)
    ensures forall id :: id in Anchored(rows, start, end) <==>
      exists row :: row in rows && row.id == id && start <= row.anchorTurn < end
  {
    if rows != [] {
      var n := |rows| - 1;
      AnchoredMeans(rows[..n], start, end);
      assert forall row :: row in rows <==> row in rows[..n] || row == rows[n];
    }
  }

  lemma StrideOn(start: nat, size: nat, k: nat)
    requires k > 0
    ensures start + k * size == (start + size) + (k - 1) * size
  {
  }

  /** The k-th section begins `k` sizes on and has `size` turns, or what is left of the transcript; it
      exposes the candidates anchored in it. */
  lemma {:induction false} SectionIs(rows: seq<Candidate>, start: nat, turns: nat, size: nat, k: nat)
    requires size > 0
    ensures var s, at := SectionsFrom(rows, start, turns, size), start + k * size;
            && (k < |s| <==> at < turns)
            && (k < |s| ==>
                 && s[k].start == at && s[k].end == (if at + size <= turns then at + size else turns)
                 && forall id :: id in s[k].exposed <==>
                      exists row :: row in rows && row.id == id && s[k].start <= row.anchorTurn < s[k].end)
    decreases k
  {
    if start >= turns {
    } else if k == 0 {
      var end := EndOf(start, turns, size);
      AnchoredMeans(rows, start, end);
    } else {
      StrideOn(start, size, k);
      SectionIs(rows, start + size, turns, size, k - 1);
    }
  }

  /** A section's ID spells the numbers of its first and last turn, counted from 1. */
  lemma SectionIdSpelled(start: nat, end: nat) returns (first: string, last: string)
    ensures SectionId(start, end) == "turns-" + (first + ("-" + last))
    ensures IsDigits(first) && IsDigits(last) && |first| >= 4 && |last| >= 4
    ensures ValueOf(first) == start + 1 && ValueOf(last) == end
  {
    first, last := Padded(start + 1), Padded(end);
    PaddedRoundTrip(start + 1);
    PaddedRoundTrip(end);
  }

  // ---- No two sections share an ID ----

  lemma SectionIdTells(a: nat, b: nat, c: nat, d: nat)
    requires SectionId(a, b) == SectionId(c, d)
    ensures a == c
  {
    PaddedRoundTrip(a + 1);
    PaddedRoundTrip(c + 1);
    var p, q := Padded(a + 1), Padded(c + 1);
    JsonUnambiguous.Behead("turns-", p + ("-" + Padded(b)), q + ("-" + Padded(d)));
    assert forall i | 0 <= i < |p| :: JsonGrammar.IsDigit(p[i]);
    assert forall i | 0 <= i < |q| :: JsonGrammar.IsDigit(q[i]);
    JsonUnambiguous.DigitsUnique(p, "-" + Padded(b), q, "-" + Padded(d));
  }

  function SectionIds(sections: seq<Section>): (r: seq<string>)
    ensures |r| == |sections|
  {
    Each((s: Section) => SectionId(s.start, s.end), sections)
  }

  lemma IdsDiffer(rows: seq<Candidate>, turns: nat, size: nat, j: nat, k: nat)
    requires size > 0 && j < k < |SectionsFrom(rows, 0, turns, size)|
    ensures var s := SectionIds(SectionsFrom(rows, 0, turns, size)); s[j] != s[k]
  {
    var s := SectionsFrom(rows, 0, turns, size);
    SectionsFollow(rows, 0, turns, size);
    Rises(s, 0, turns, j, k);
    var p, q := SectionId(s[j].start, s[j].end), SectionId(s[k].start, s[k].end);
    if p == q { SectionIdTells(s[j].start, s[j].end, s[k].start, s[k].end); }
  }

  lemma SectionIdsDistinct(rows: seq<Candidate>, turns: nat, size: nat)
    requires size > 0
    ensures Distinct(SectionIds(SectionsFrom(rows, 0, turns, size)))
  {
    var s := SectionsFrom(rows, 0, turns, size);
    forall j, k | 0 <= j < k < |s| ensures SectionIds(s)[j] != SectionIds(s)[k] {
      IdsDiffer(rows, turns, size, j, k);
    }
  }

  // ---- Every candidate is exposed under one section ----

  function ExposedFrom(sections: seq<Section>): seq<string> {
    if sections == [] then [] else sections[0].exposed + ExposedFrom(sections[1..])
  }

  lemma {:induction false} NoneAnchored(rows: seq<Candidate>, start: int, end: int)
    requires start >= end || forall row | row in rows :: row.anchorTurn < start || end <= row.anchorTurn
    ensures Anchored(rows, start, end) == []
  {
    if rows == [] {
    } else {
      NoneAnchored(rows[..|rows| - 1], start, end);
    }
  }

  /** Rows in turn order: those of one stretch come before those of the next. */
  lemma {:induction false} AnchoredSplits(rows: seq<Candidate>, start: int, mid: int, end: int)
    requires Coverage.InTurnOrder(rows) && start <= mid <= end
    ensures Anchored(rows, start, end) == Anchored(rows, start, mid) + Anchored(rows, mid, end)
  {
    if rows == [] {
    } else {
      var n := |rows| - 1;
      AnchoredSplits(rows[..n], start, mid, end);
      var a, b, c := Anchored(rows[..n], start, mid), Anchored(rows[..n], mid, end), [rows[n].id];
      AppendNothing(a);
      if start <= rows[n].anchorTurn < mid {
        assert forall row | row in rows[..n] :: row.anchorTurn < mid;
        NoneAnchored(rows[..n], mid, end);
        AppendNothing(a + c);
      } else if mid <= rows[n].anchorTurn < end {
        AppendAssociates(a, b, c);
        AppendNothing(b + c);
      } else {
        AppendNothing(b);
        AppendNothing(a + b);
      }
    }
  }

  /** The sections expose the rows anchored in the transcript, each once and in manifest order. */
  lemma {:induction false} ExposedInOrder(rows: seq<Candidate>, start: nat, turns: nat, size: nat)
    requires size > 0 && Coverage.InTurnOrder(rows)
    ensures ExposedFrom(SectionsFrom(rows, start, turns, size)) == Anchored(rows, start, turns)
    decreases turns - start
  {
    if start >= turns {
      NoneAnchored(rows, start, turns);
    } else {
      ExposedInOrder(rows, start + size, turns, size);
      var end := EndOf(start, turns, size);
      AnchoredSplits(rows, start, end, turns);
      if start + size > turns {
        NoneAnchored(rows, start + size, turns);
        NoneAnchored(rows, end, turns);
      }
    }
  }

  lemma {:induction false} AllAnchored(rows: seq<Candidate>, turns: nat)
    requires forall row | row in rows :: 0 <= row.anchorTurn < turns
    ensures Anchored(rows, 0, turns) == seq(|rows|, k requires 0 <= k < |rows| => rows[k].id)
  {
    if rows == [] {
    } else {
      var n := |rows| - 1;
      AllAnchored(rows[..n], turns);
      assert rows[n] in rows;
    }
  }

  /** A manifest's candidates are exposed by the sections exactly once each, in its own order. */
  lemma SectionsExposeManifest(rows: seq<Candidate>, turns: nat, size: nat)
    requires size > 0 && Coverage.InTurnOrder(rows) && forall row | row in rows :: 0 <= row.anchorTurn < turns
    ensures ExposedFrom(SectionsFrom(rows, 0, turns, size)) == seq(|rows|, k requires 0 <= k < |rows| => rows[k].id)
  {
    ExposedInOrder(rows, 0, turns, size);
    AllAnchored(rows, turns);
  }
}
