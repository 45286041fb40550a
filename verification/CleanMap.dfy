/** `qmsum_coordinates`: clean characters mapped back to raw offsets, against the independent
    cleaner the transcript loader uses. */
module CleanMap {
  import opened Common
  import opened Markers

  // ---- Words ----

  /** `space` is Unicode whitespace: a blank is one, and no marker character is. */
  ghost predicate Spacing(space: char -> bool) {
    space(' ') && forall m, i | m in MARKERS && 0 <= i < |m| :: !space(m[i])
  }

  function Flush(word: string): seq<string> {
    if word == [] then [] else [word]
  }

  /** The words of `text`, the first one continuing `open`. */
  function SplitFrom(space: char -> bool, open: string, text: string): seq<string>
    decreases |text|
  {
    if text == [] then Flush(open)
    else if space(text[0]) then Flush(open) + SplitFrom(space, [], text[1..])
    else SplitFrom(space, open + [text[0]], text[1..])
  }

  /** `text.split()`. */
  function Words(space: char -> bool, text: string): seq<string> {
    SplitFrom(space, [], text)
  }

  lemma {:induction false} BlanksSplit(space: char -> bool, open: string, n: nat, text: string)
    requires space(' ') && n > 0
    ensures SplitFrom(space, open, Spaces(n) + text) == Flush(open) + SplitFrom(space, [], text)
    decreases n
  {
    var t := Spaces(n) + text;
    assert t[0] == ' ';
    if n > 1 {
      assert t[1..] == Spaces(n - 1) + text;
      BlanksSplit(space, [], n - 1, text);
      AppendNothing(SplitFrom(space, [], text));
    } else {
      assert t[1..] == text;
    }
  }

  /** One blank or many: the words are the same. */
  lemma {:induction false} WidthIrrelevant(space: char -> bool, open: string, text: string, ms: seq<string>)
    requires space(' ') && AllBraced(ms)
    ensures SplitFrom(space, open, Masked(text, ms, true)) == SplitFrom(space, open, Masked(text, ms, false))
    decreases |text|
  {
    if text == [] {
    } else {
      MarkerFound(text, ms);
      match MarkerAt(text, ms) {
        case Some(m) =>
          var wide, narrow := Masked(text[|m|..], ms, true), Masked(text[|m|..], ms, false);
          WidthIrrelevant(space, [], text[|m|..], ms);
          BlanksSplit(space, open, |m|, wide);
          BlanksSplit(space, open, 1, narrow);
          assert Spaces(1) == " ";
        case None =>
          var wide, narrow := Masked(text[1..], ms, true), Masked(text[1..], ms, false);
          assert ([text[0]] + wide)[1..] == wide && ([text[0]] + narrow)[1..] == narrow;
          WidthIrrelevant(space, [], text[1..], ms);
          WidthIrrelevant(space, open + [text[0]], text[1..], ms);
      }
    }
  }

  /** `" ".join(words)`. */
  function Join(words: seq<string>): string {
    if words == [] then ""
    else if |words| == 1 then words[0]
    else words[0] + " " + Join(words[1..])
  }

  /** `_clean`: each kind replaced by one blank, in whatever order the set yields them. */
  function Clean(space: char -> bool, text: string, order: seq<string>): string
    requires AllBraced(order)
  {
    Join(Words(space, ReplaceAll(text, order, false)))
  }

  // ---- Word spans, and the offsets built from them ----

  function SpanIf(from: nat, to: nat): seq<(nat, nat)> {
    if from < to then [(from, to)] else []
  }

  /** The spans of `\S+` from `i` on, the first one continuing from `from`. */
  function Spans(space: char -> bool, text: string, from: nat, i: nat): seq<(nat, nat)>
    requires from <= i <= |text|
    decreases |text| - i
  {
    if i == |text| then SpanIf(from, i)
    else if space(text[i]) then SpanIf(from, i) + Spans(space, text, i + 1, i + 1)
    else Spans(space, text, from, i + 1)
  }

  /** A stretch of non-space characters that ends at a space or with the text. */
  ghost predicate IsWord(space: char -> bool, text: string, span: (nat, nat)) {
    && span.0 < span.1 <= |text| && (span.1 < |text| ==> space(text[span.1]))
    && forall k | span.0 <= k < span.1 :: !space(text[k])
  }

  ghost predicate Within(spans: seq<(nat, nat)>, k: nat) {
    exists a :: 0 <= a < |spans| && spans[a].0 <= k < spans[a].1
  }

  /** Words, ordered and apart; every non-space from `from` on is in one. */
  ghost predicate WordSpans(space: char -> bool, text: string, spans: seq<(nat, nat)>, from: nat) {
    && (forall a | 0 <= a < |spans| :: from <= spans[a].0 && IsWord(space, text, spans[a]))
    && (forall a, b | 0 <= a < b < |spans| :: spans[a].1 < spans[b].0)
    && (forall k: nat | from <= k < |text| && !space(text[k]) :: Within(spans, k))
  }

  lemma WithinNext(span: (nat, nat), rest: seq<(nat, nat)>, k: nat)
    requires span.0 <= k < span.1 || Within(rest, k)
    ensures Within([span] + rest, k)
  {
    if span.0 <= k < span.1 {
      assert ([span] + rest)[0] == span;
    } else {
      var a :| 0 <= a < |rest| && rest[a].0 <= k < rest[a].1;
      assert ([span] + rest)[a + 1] == rest[a];
    }
  }

  lemma SpanPrepend(space: char -> bool, text: string, rest: seq<(nat, nat)>, from: nat, i: nat)
    requires from < i < |text| && IsWord(space, text, (from, i)) && WordSpans(space, text, rest, i + 1)
    ensures WordSpans(space, text, [(from, i)] + rest, from)
  {
    forall k: nat | from <= k < |text| && !space(text[k]) ensures Within([(from, i)] + rest, k) {
      WithinNext((from, i), rest, k);
    }
  }

  lemma SpaceBefore(space: char -> bool, text: string, rest: seq<(nat, nat)>, from: nat)
    requires from < |text| && space(text[from]) && WordSpans(space, text, rest, from + 1)
    ensures WordSpans(space, text, SpanIf(from, from) + rest, from)
  {
    assert SpanIf(from, from) + rest == rest;
  }

  lemma LastSpan(space: char -> bool, text: string, from: nat)
    requires from <= |text| && forall k | from <= k < |text| :: !space(text[k])
    ensures WordSpans(space, text, SpanIf(from, |text|), from)
  {
    forall k: nat | from <= k < |text| ensures Within([(from, |text|)], k) {
      assert [(from, |text|)][0] == (from, |text|);
    }
  }

  lemma {:induction false} SpansAreWords(space: char -> bool, text: string, from: nat, i: nat)
    requires from <= i <= |text| && forall k | from <= k < i :: !space(text[k])
    ensures WordSpans(space, text, Spans(space, text, from, i), from)
    decreases |text| - i
  {
    if i < |text| {
      if space(text[i]) {
        SpansAreWords(space, text, i + 1, i + 1);
        var rest := Spans(space, text, i + 1, i + 1);
        if from < i {
          SpanPrepend(space, text, rest, from, i);
        } else {
          SpaceBefore(space, text, rest, from);
        }
      } else {
        SpansAreWords(space, text, from, i + 1);
      }
    } else {
      LastSpan(space, text, from);
    }
  }

  function Texts(text: string, spans: seq<(nat, nat)>): seq<string>
    requires forall a | 0 <= a < |spans| :: spans[a].0 <= spans[a].1 <= |text|
  {
    seq(|spans|, a requires 0 <= a < |spans| => text[spans[a].0..spans[a].1])
  }

  lemma PrefixOf(text: string, from: nat, i: nat)
    requires from <= i < |text|
    ensures text[from..i + 1] == text[from..i] + [text[i]]
  {
  }

  /** The span texts are the words. */
  lemma {:induction false} SpanTexts(space: char -> bool, text: string, from: nat, i: nat)
    requires from <= i <= |text| && forall k | from <= k < i :: !space(text[k])
    ensures forall a | 0 <= a < |Spans(space, text, from, i)| ::
      Spans(space, text, from, i)[a].0 <= Spans(space, text, from, i)[a].1 <= |text|
    ensures Texts(text, Spans(space, text, from, i)) == SplitFrom(space, text[from..i], text[i..])
    decreases |text| - i
  {
    if i == |text| {
      assert text[i..] == [];
    } else {
      assert text[i..][0] == text[i] && text[i..][1..] == text[i + 1..];
      if space(text[i]) {
        SpanTexts(space, text, i + 1, i + 1);
        assert text[i + 1..i + 1] == [];
        var rest := Spans(space, text, i + 1, i + 1);
        assert Texts(text, SpanIf(from, i) + rest) == Flush(text[from..i]) + Texts(text, rest);
      } else {
        SpanTexts(space, text, from, i + 1);
        PrefixOf(text, from, i);
      }
    }
  }

  // ---- The map of one row ----

  /** The clean text of one row and, for each of its characters, a raw offset. */
  datatype Coordinate = Coordinate(clean: string, offsets: seq<nat>)

  datatype MapError = NotExact | WrongTurnCount | Disagrees(ordinal: nat)

  lemma {:induction false} JoinAppend(words: seq<string>, word: string)
    ensures Join(words + [word]) == if words == [] then word else Join(words) + " " + word
  {
    if |words| > 1 {
      assert (words + [word])[1..] == words[1..] + [word];
      JoinAppend(words[1..], word);
      AppendAssociates(words[0] + " ", Join(words[1..]) + " ", word);
      AppendAssociates(words[0] + " ", Join(words[1..]), " ");
    } else if |words| == 1 {
      assert words + [word] == [words[0], word];
      assert [words[0], word][1..] == [word];
    }
  }

  /** One raw offset per clean character: strictly rising; a separator stands for a space of the
      raw row, or of a marker; every other character is the raw one. */
  ghost predicate Faithful(space: char -> bool, masked: string, c: Coordinate) {
    && |c.clean| == |c.offsets|
    && (forall k | 0 <= k < |c.offsets| :: c.offsets[k] < |masked|)
    && (forall j, k | 0 <= j < k < |c.offsets| :: c.offsets[j] < c.offsets[k])
    && (forall k | 0 <= k < |c.offsets| ::
          if space(masked[c.offsets[k]]) then c.clean[k] == ' ' else c.clean[k] == masked[c.offsets[k]])
  }

  function UpFrom(from: nat, to: nat): (r: seq<nat>)
    requires from <= to
    ensures |r| == to - from && forall k | 0 <= k < |r| :: r[k] == from + k
  {
    seq(to - from, k => from + k)
  }

  /** Where the offsets of a piece stop. */
  function EndOf(c: Coordinate): nat {
    if c.offsets == [] then 0 else c.offsets[|c.offsets| - 1] + 1
  }

  /** Two faithful pieces, the second one further on, join into one. */
  lemma FaithfulJoin(space: char -> bool, masked: string, c: Coordinate, d: Coordinate)
    requires Faithful(space, masked, c) && Faithful(space, masked, d)
    requires forall k | 0 <= k < |d.offsets| :: d.offsets[k] >= EndOf(c)
    ensures Faithful(space, masked, Coordinate(c.clean + d.clean, c.offsets + d.offsets))
    ensures d.offsets != [] ==> EndOf(Coordinate(c.clean + d.clean, c.offsets + d.offsets)) == EndOf(d)
  {
  }

  lemma FaithfulWord(space: char -> bool, masked: string, from: nat, to: nat)
    requires from < to <= |masked| && forall k | from <= k < to :: !space(masked[k])
    ensures Faithful(space, masked, Coordinate(masked[from..to], UpFrom(from, to)))
    ensures EndOf(Coordinate(masked[from..to], UpFrom(from, to))) == to
  {
  }

  /** Appending a word: its separator sits at the end of the word before it. */
  lemma FaithfulNext(space: char -> bool, masked: string, spans: seq<(nat, nat)>, a: nat, c: Coordinate,
                     next: Coordinate)
    requires WordSpans(space, masked, spans, 0) && a < |spans| && Faithful(space, masked, c)
    requires a == 0 ==> c == Coordinate("", [])
    requires a > 0 ==> EndOf(c) == spans[a - 1].1
    requires next.clean == c.clean + (if a > 0 then " " else "") + masked[spans[a].0..spans[a].1]
    requires next.offsets == c.offsets + (if a > 0 then [spans[a - 1].1] else []) + UpFrom(spans[a].0, spans[a].1)
    ensures Faithful(space, masked, next) && EndOf(next) == spans[a].1
  {
    var (from, to) := spans[a];
    var word := Coordinate(masked[from..to], UpFrom(from, to));
    FaithfulWord(space, masked, from, to);
    if a > 0 {
      var at := spans[a - 1].1;
      assert at < from && space(masked[at]);
      var gap := Coordinate(" ", [at]);
      FaithfulJoin(space, masked, c, gap);
      FaithfulJoin(space, masked, Coordinate(c.clean + " ", c.offsets + [at]), word);
    } else {
      AppendNothing(word.clean);
      AppendNothing(word.offsets);
    }
  }

  /** No spoken character of the row is without an offset. */
  ghost predicate Exhaustive(space: char -> bool, masked: string, offsets: seq<nat>) {
    forall p: nat | p < |masked| && !space(masked[p]) :: p in offsets
  }

  /** Every position of the first `n` words has an offset. */
  ghost predicate Listed(words: seq<(nat, nat)>, n: nat, offsets: seq<nat>)
    requires n <= |words|
  {
    forall b, p: nat | 0 <= b < n && words[b].0 <= p < words[b].1 :: p in offsets
  }

  lemma ListedNext(words: seq<(nat, nat)>, a: nat, offsets: seq<nat>, separator: seq<nat>)
    requires a < |words| && words[a].0 <= words[a].1 && Listed(words, a, offsets)
    ensures Listed(words, a + 1, offsets + separator + UpFrom(words[a].0, words[a].1))
  {
    var range := UpFrom(words[a].0, words[a].1);
    forall p: nat | words[a].0 <= p < words[a].1 ensures p in range {
      assert range[p - words[a].0] == p;
    }
  }

  lemma TextsNext(masked: string, words: seq<(nat, nat)>, a: nat)
    requires a < |words| && forall b | 0 <= b < |words| :: words[b].0 <= words[b].1 <= |masked|
    ensures Join(Texts(masked, words[..a + 1]))
         == Join(Texts(masked, words[..a])) + (if a > 0 then " " else "") + masked[words[a].0..words[a].1]
  {
    assert Texts(masked, words[..a + 1]) == Texts(masked, words[..a]) + [masked[words[a].0..words[a].1]];
    JoinAppend(Texts(masked, words[..a]), masked[words[a].0..words[a].1]);
  }

  method MapOffsets(space: char -> bool, masked: string, words: seq<(nat, nat)>) returns (offsets: seq<nat>)
    requires WordSpans(space, masked, words, 0)
    ensures Faithful(space, masked, Coordinate(Join(Texts(masked, words)), offsets))
    ensures Listed(words, |words|, offsets)
  {
    offsets := [];
    ghost var c := Coordinate("", []);
    for a := 0 to |words|
      invariant c == Coordinate(Join(Texts(masked, words[..a])), offsets) && Faithful(space, masked, c)
      invariant a > 0 ==> EndOf(c) == words[a - 1].1
      invariant Listed(words, a, offsets)
    {
      ghost var before := c;
      var separator := if a > 0 then [words[a - 1].1] else [];
      ListedNext(words, a, offsets, separator);
      offsets := offsets + separator + UpFrom(words[a].0, words[a].1);
      TextsNext(masked, words, a);
      c := Coordinate(Join(Texts(masked, words[..a + 1])), offsets);
      FaithfulNext(space, masked, words, a, before, c);
    }
    assert words[..|words|] == words;
  }

  /** The body of the row loop. */
  method MapRow(space: char -> bool, raw: string) returns (r: Result<Option<Coordinate>, MapError>)
    requires Spacing(space)
    ensures AllBraced(MARKERS)
    ensures r.Ok?
    ensures r.value.None? <==> Words(space, Masked(raw, MARKERS, true)) == []
    ensures r.value.Some? ==>
      && Faithful(space, Masked(raw, MARKERS, true), r.value.value)
      && r.value.value.clean == Join(Words(space, Masked(raw, MARKERS, true)))
      && Exhaustive(space, Masked(raw, MARKERS, true), r.value.value.offsets)
  {
    MarkersAreBraced();
    var replaced := ReplaceAll(raw, MARKERS, true);
    ReplaceAllIsMasked(raw, MARKERS, true);
    var words := Spans(space, replaced, 0, 0);
    SpansAreWords(space, replaced, 0, 0);
    SpanTexts(space, replaced, 0, 0);
    assert replaced[0..0] == [] && replaced[0..] == replaced;
    if words == [] {
      return Ok(None);
    }
    var clean := Join(Texts(replaced, words));
    var offsets := MapOffsets(space, replaced, words);
    if |clean| != |offsets| {
      return Refused(NotExact);
    }
    r := Ok(Some(Coordinate(clean, offsets)));
    forall p: nat | p < |replaced| && !space(replaced[p]) ensures p in offsets {
      assert Within(words, p);
      var b :| 0 <= b < |words| && words[b].0 <= p < words[b].1;
    }
  }

  // ---- The map against the loader's cleaner ----

  lemma {:induction false} WordsNotEmpty(space: char -> bool, open: string, text: string)
    ensures "" !in SplitFrom(space, open, text)
    decreases |text|
  {
    if text == [] {
    } else {
      WordsNotEmpty(space, [], text[1..]);
      WordsNotEmpty(space, open + [text[0]], text[1..]);
    }
  }

  /** Whatever order the loader removes the kinds in, its clean text is the map's. */
  lemma CleanersAgree(space: char -> bool, raw: string, order: seq<string>)
    requires Spacing(space) && AllBraced(order) && Elements(order) == Elements(MARKERS)
    ensures AllBraced(MARKERS)
    ensures Clean(space, raw, order) == Join(Words(space, Masked(raw, MARKERS, true)))
    ensures Clean(space, raw, order) == "" <==> Words(space, Masked(raw, MARKERS, true)) == []
  {
    MarkersAreBraced();
    ReplaceAllIsMasked(raw, order, false);
    MaskedAnyOrder(raw, order, MARKERS, false);
    WidthIrrelevant(space, [], raw, MARKERS);
    var masked := Masked(raw, MARKERS, true);
    WordsNotEmpty(space, [], masked);
  }

  ghost predicate FromRawSpan(space: char -> bool, raw: string, c: Coordinate, start: nat, end: nat)
    requires start < end <= |c.clean| == |c.offsets|
  {
    && c.offsets[start] < c.offsets[end - 1] + 1 <= |raw|
    && (forall k | start <= k < end :: c.offsets[start] <= c.offsets[k] < c.offsets[end - 1] + 1)
    && (forall k | start <= k < end && !space(c.clean[k]) :: c.offsets[k] < |raw| && c.clean[k] == raw[c.offsets[k]])
  }

  lemma FragmentOf(space: char -> bool, raw: string, masked: string, c: Coordinate, start: nat, end: nat)
    requires space(' ') && Faithful(space, masked, c) && start < end <= |c.clean|
    requires |masked| == |raw| && forall i | 0 <= i < |raw| :: masked[i] == ' ' || masked[i] == raw[i]
    ensures FromRawSpan(space, raw, c, start, end)
  {
  }

  /** A character the map copies is the raw row's own character, and a non-empty clean fragment
      comes from a non-empty raw span. */
  lemma FragmentFromRaw(space: char -> bool, raw: string, ms: seq<string>, c: Coordinate, start: nat, end: nat)
    requires space(' ') && AllBraced(ms) && Faithful(space, Masked(raw, ms, true), c)
    requires start < end <= |c.clean|
    ensures FromRawSpan(space, raw, c, start, end)
  {
    MaskedInPlace(raw, ms);
    FragmentOf(space, raw, Masked(raw, ms, true), c, start, end);
  }

  // ---- All rows ----

  /** A mapped row: its place among the raw rows, and its map. */
  datatype Mapped = Mapped(rawOrdinal: nat, coordinate: Coordinate)

  /** The loader's turns: the clean texts that are not empty. */
  function Turns(space: char -> bool, rows: seq<string>, order: seq<string>): seq<string>
    requires AllBraced(order)
  {
    if rows == [] then []
    else
      var n := |rows| - 1;
      var clean := Clean(space, rows[n], order);
      Turns(space, rows[..n], order) + if clean == "" then [] else [clean]
  }

  method FirstDisagreement(output: seq<Mapped>, ghost cleans: seq<string>, turns: seq<string>)
    returns (ordinal: Option<nat>)
    requires |output| == |turns| == |cleans|
    requires forall k | 0 <= k < |output| :: output[k].coordinate.clean == cleans[k]
    ensures ordinal.None? <==> turns == cleans
  {
    for k := 0 to |turns|
      invariant forall j | 0 <= j < k :: cleans[j] == turns[j]
    {
      if output[k].coordinate.clean != turns[k] {
        return Some(k);
      }
    }
    assert cleans == turns;
    ordinal := None;
  }

  ghost predicate Spoken(space: char -> bool, raw: string)
    requires AllBraced(MARKERS)
  {
    Words(space, Masked(raw, MARKERS, true)) != []
  }

  ghost predicate MapsRow(space: char -> bool, raw: string, c: Coordinate)
    requires AllBraced(MARKERS)
  {
    && Faithful(space, Masked(raw, MARKERS, true), c) && Exhaustive(space, Masked(raw, MARKERS, true), c.offsets)
    && c.clean == Join(Words(space, Masked(raw, MARKERS, true)))
  }

  /** The output names rows that have words, each with its map, among the first `n`. */
  ghost predicate NamesSpoken(space: char -> bool, rows: seq<string>, n: nat, output: seq<Mapped>)
    requires AllBraced(MARKERS) && n <= |rows|
  {
    forall k | 0 <= k < |output| ::
      && output[k].rawOrdinal < n && Spoken(space, rows[output[k].rawOrdinal])
      && MapsRow(space, rows[output[k].rawOrdinal], output[k].coordinate)
  }

  ghost predicate InRowOrder(output: seq<Mapped>) {
    forall j, k | 0 <= j < k < |output| :: output[j].rawOrdinal < output[k].rawOrdinal
  }

  ghost predicate Names(output: seq<Mapped>, i: nat) {
    exists k :: 0 <= k < |output| && output[k].rawOrdinal == i
  }

  /** None of the first `n` rows that have words is left out. */
  ghost predicate LeavesNoneOut(space: char -> bool, rows: seq<string>, n: nat, output: seq<Mapped>)
    requires AllBraced(MARKERS) && n <= |rows|
  {
    forall i: nat | i < n && Spoken(space, rows[i]) :: Names(output, i)
  }

  /** The output lists, in row order, exactly the rows that have words among the first `n`, each
      with its map. */
  ghost predicate MapsRows(space: char -> bool, rows: seq<string>, n: nat, output: seq<Mapped>) {
    && AllBraced(MARKERS) && n <= |rows|
    && NamesSpoken(space, rows, n, output) && InRowOrder(output) && LeavesNoneOut(space, rows, n, output)
  }

  /** Each mapped row stands where the loader puts its turn. */
  ghost predicate Placed(space: char -> bool, rows: seq<string>, order: seq<string>, output: seq<Mapped>)
    requires AllBraced(order)
  {
    forall k | 0 <= k < |output| ::
      output[k].rawOrdinal < |rows| && |Turns(space, rows[..output[k].rawOrdinal], order)| == k
  }

  /** The mapped rows' clean texts. */
  ghost predicate CleansOf(output: seq<Mapped>, cleans: seq<string>) {
    |output| == |cleans| && forall k | 0 <= k < |output| :: output[k].coordinate.clean == cleans[k]
  }

  /** What the row loop keeps. */
  ghost predicate Progress(space: char -> bool, rows: seq<string>, order: seq<string>, i: nat, output: seq<Mapped>,
                           cleans: seq<string>)
    requires AllBraced(order) && i <= |rows|
  {
    && cleans == Turns(space, rows[..i], order) && CleansOf(output, cleans)
    && MapsRows(space, rows, i, output) && Placed(space, rows, order, output)
  }

  lemma TurnsNext(space: char -> bool, rows: seq<string>, i: nat, order: seq<string>)
    requires AllBraced(order) && i < |rows|
    ensures Turns(space, rows[..i + 1], order) == Turns(space, rows[..i], order)
      + if Clean(space, rows[i], order) == "" then [] else [Clean(space, rows[i], order)]
  {
    assert rows[..i + 1][..i] == rows[..i];
  }

  lemma NamesSpokenNext(space: char -> bool, rows: seq<string>, output: seq<Mapped>, m: Mapped)
    requires AllBraced(MARKERS) && m.rawOrdinal < |rows| && NamesSpoken(space, rows, m.rawOrdinal, output)
    requires Spoken(space, rows[m.rawOrdinal]) && MapsRow(space, rows[m.rawOrdinal], m.coordinate)
    ensures NamesSpoken(space, rows, m.rawOrdinal + 1, output + [m])
  {
  }

  lemma InRowOrderNext(space: char -> bool, rows: seq<string>, output: seq<Mapped>, m: Mapped)
    requires AllBraced(MARKERS) && m.rawOrdinal < |rows| && NamesSpoken(space, rows, m.rawOrdinal, output)
    requires InRowOrder(output)
    ensures InRowOrder(output + [m])
  {
  }

  lemma NamesNext(output: seq<Mapped>, m: Mapped, i: nat)
    requires Names(output, i) || m.rawOrdinal == i
    ensures Names(output + [m], i)
  {
    var k := if m.rawOrdinal == i then |output| else var k :| 0 <= k < |output| && output[k].rawOrdinal == i; k;
    assert (output + [m])[k].rawOrdinal == i;
  }

  lemma LeavesNoneOutNext(space: char -> bool, rows: seq<string>, output: seq<Mapped>, m: Mapped)
    requires AllBraced(MARKERS) && m.rawOrdinal < |rows| && LeavesNoneOut(space, rows, m.rawOrdinal, output)
    ensures LeavesNoneOut(space, rows, m.rawOrdinal + 1, output + [m])
  {
    forall i: nat | i <= m.rawOrdinal && Spoken(space, rows[i]) ensures Names(output + [m], i) {
      NamesNext(output, m, i);
    }
  }

  lemma PlacedNext(space: char -> bool, rows: seq<string>, order: seq<string>, output: seq<Mapped>, m: Mapped)
    requires AllBraced(order) && Placed(space, rows, order, output) && m.rawOrdinal < |rows|
    requires |Turns(space, rows[..m.rawOrdinal], order)| == |output|
    ensures Placed(space, rows, order, output + [m])
  {
  }

  /** A row without words is passed over. */
  lemma ProgressPast(space: char -> bool, rows: seq<string>, order: seq<string>, i: nat, output: seq<Mapped>,
                     cleans: seq<string>)
    requires Spacing(space) && AllBraced(order) && Elements(order) == Elements(MARKERS)
    requires i < |rows| && Progress(space, rows, order, i, output, cleans) && !Spoken(space, rows[i])
    ensures Progress(space, rows, order, i + 1, output, cleans)
  {
    CleanersAgree(space, rows[i], order);
    TurnsNext(space, rows, i, order);
    AppendNothing(cleans);
  }

  /** A row with words is listed. */
  lemma ProgressNext(space: char -> bool, rows: seq<string>, order: seq<string>, i: nat, output: seq<Mapped>,
                     cleans: seq<string>, c: Coordinate)
    requires Spacing(space) && AllBraced(order) && Elements(order) == Elements(MARKERS)
    requires i < |rows| && Progress(space, rows, order, i, output, cleans)
    requires Spoken(space, rows[i]) && MapsRow(space, rows[i], c)
    ensures Progress(space, rows, order, i + 1, output + [Mapped(i, c)], cleans + [c.clean])
  {
    var m := Mapped(i, c);
    CleanersAgree(space, rows[i], order);
    TurnsNext(space, rows, i, order);
    NamesSpokenNext(space, rows, output, m);
    InRowOrderNext(space, rows, output, m);
    LeavesNoneOutNext(space, rows, output, m);
    PlacedNext(space, rows, order, output, m);
  }

  /** The loop over the raw rows: neither refusal in it can happen. */
  method MapAll(space: char -> bool, rows: seq<string>, ghost order: seq<string>)
    returns (output: seq<Mapped>, ghost cleans: seq<string>)
    requires Spacing(space) && AllBraced(order) && Elements(order) == Elements(MARKERS)
    ensures MapsRows(space, rows, |rows|, output)
    ensures cleans == Turns(space, rows, order) && CleansOf(output, cleans)
    ensures Placed(space, rows, order, output)
  {
    MarkersAreBraced();
    output, cleans := [], [];
    for i := 0 to |rows|
      invariant Progress(space, rows, order, i, output, cleans)
    {
      var mapped := MapRow(space, rows[i]);
      if mapped.value.None? {
        ProgressPast(space, rows, order, i, output, cleans);
      } else {
        ProgressNext(space, rows, order, i, output, cleans, mapped.value.value);
        output := output + [Mapped(i, mapped.value.value)];
        cleans := cleans + [mapped.value.value.clean];
      }
    }
    assert rows[..|rows|] == rows;
  }

  /** `qmsum_coordinates`: accepts exactly the turns the loader makes of the same rows. */
  method QmsumCoordinates(space: char -> bool, rows: seq<string>, turns: seq<string>, ghost order: seq<string>)
    returns (r: Result<seq<Mapped>, MapError>)
    requires Spacing(space) && AllBraced(order) && Elements(order) == Elements(MARKERS)
    ensures r.Ok? <==> turns == Turns(space, rows, order)
    ensures r.Ok? ==> MapsRows(space, rows, |rows|, r.value) && Placed(space, rows, order, r.value)
    ensures r.Ok? ==> CleansOf(r.value, turns)
  {
    var output, cleans := MapAll(space, rows, order);
    if |output| != |turns| {
      return Refused(WrongTurnCount);
    }
    var disagreement := FirstDisagreement(output, cleans, turns);
    if disagreement.Some? {
      return Refused(Disagrees(disagreement.value));
    }
    r := Ok(output);
  }

  function CleanPlace(space: char -> bool, rows: seq<string>, order: seq<string>, i: nat): Option<nat>
    requires AllBraced(order) && i < |rows|
  {
    if Clean(space, rows[i], order) == "" then None else Some(|Turns(space, rows[..i], order)|)
  }

  /** `raw_to_clean` of `qmsum_search_spans`: where each raw row went, if anywhere. */
  method RawToClean(space: char -> bool, rows: seq<string>, order: seq<string>) returns (m: seq<Option<nat>>)
    requires AllBraced(order)
    ensures |m| == |rows|
    ensures forall i: nat | i < |rows| :: m[i] == CleanPlace(space, rows, order, i)
  {
    m := [];
    var cleaned := 0;
    for i := 0 to |rows|
      invariant |m| == i && cleaned == |Turns(space, rows[..i], order)|
      invariant forall j: nat | j < i :: m[j] == CleanPlace(space, rows, order, j)
    {
      TurnsNext(space, rows, i, order);
      if Clean(space, rows[i], order) == "" {
        m := m + [None];
      } else {
        m, cleaned := m + [Some(cleaned)], cleaned + 1;
      }
    }
  }

  /** The two row maps, computed apart, are inverses. */
  lemma RowMapsInverse(space: char -> bool, rows: seq<string>, order: seq<string>, output: seq<Mapped>, i: nat, k: nat)
    requires Spacing(space) && AllBraced(order) && Elements(order) == Elements(MARKERS)
    requires MapsRows(space, rows, |rows|, output) && Placed(space, rows, order, output) && i < |rows|
    ensures CleanPlace(space, rows, order, i) == Some(k) <==> k < |output| && output[k].rawOrdinal == i
  {
    CleanersAgree(space, rows[i], order);
    if Spoken(space, rows[i]) {
      var j :| 0 <= j < |output| && output[j].rawOrdinal == i;
    }
  }
}
