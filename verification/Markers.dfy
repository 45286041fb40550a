/** Removing `{...}` markers: replacing them one kind after another, in any order, is one scan. */
module Markers {
  import opened Common

  /** The kinds the corpora annotate. */
  const MARKERS: seq<string> := ["{vocalsound}", "{gap}", "{disfmarker}", "{pause}", "{nonvocalsound}", "{comment}"]

  /** Braces at the ends and nowhere else, and no blank: all six kinds have this shape. */
  predicate Braced(m: string) {
    && |m| >= 2 && m[0] == '{' && m[|m| - 1] == '}'
    && (forall i | 0 < i < |m| :: m[i] != '{')
    && (forall i | 0 < i < |m| - 1 :: m[i] != '}')
    && (forall i | 0 <= i < |m| :: m[i] != ' ')
  }

  predicate AllBraced(ms: seq<string>) {
    forall m | m in ms :: Braced(m)
  }

  lemma ShortMarkers()
    ensures Braced("{gap}") && Braced("{pause}") && Braced("{comment}")
  {
  }

  lemma LongMarkers()
    ensures Braced("{vocalsound}") && Braced("{disfmarker}") && Braced("{nonvocalsound}")
  {
  }

  lemma MarkersAreBraced()
    ensures AllBraced(MARKERS)
  {
    ShortMarkers();
    LongMarkers();
  }

  function Spaces(n: nat): (r: string)
    ensures |r| == n && forall i | 0 <= i < n :: r[i] == ' '
  {
    seq(n, _ => ' ')
  }

  /** What a marker is replaced by: as many blanks, or a single one. */
  function Blanked(m: string, wide: bool): string {
    if wide then Spaces(|m|) else " "
  }

  /** `text.replace(m, rep)`. */
  function Replace(text: string, m: string, rep: string): string
    requires m != []
  {
    if text == [] then []
    else if m <= text then rep + Replace(text[|m|..], m, rep)
    else [text[0]] + Replace(text[1..], m, rep)
  }

  /** Replacing the kinds one after another. */
  function ReplaceAll(text: string, ms: seq<string>, wide: bool): string
    requires AllBraced(ms)
  {
    if ms == [] then text
    else
      var n := |ms| - 1;
      assert ms[n] in ms;
      Replace(ReplaceAll(text, ms[..n], wide), ms[n], Blanked(ms[n], wide))
  }

  // ---- The single scan ----

  function MarkerAt(text: string, ms: seq<string>): Option<string> {
    if ms == [] then None
    else if ms[0] <= text then Some(ms[0])
    else MarkerAt(text, ms[1..])
  }

  lemma {:induction false} MarkerFound(text: string, ms: seq<string>)
    requires AllBraced(ms)
    ensures MarkerAt(text, ms).Some? ==>
      MarkerAt(text, ms).value in ms && MarkerAt(text, ms).value <= text && Braced(MarkerAt(text, ms).value)
    ensures MarkerAt(text, ms).None? ==> forall m | m in ms :: !(m <= text)
  {
    if ms != [] && !(ms[0] <= text) {
      MarkerFound(text, ms[1..]);
      assert ms == [ms[0]] + ms[1..];
    }
  }

  function Masked(text: string, ms: seq<string>, wide: bool): string
    requires AllBraced(ms)
    decreases |text|
  {
    if text == [] then []
    else
      match MarkerAt(text, ms)
      case None => [text[0]] + Masked(text[1..], ms, wide)
      case Some(m) =>
        MarkerFound(text, ms);
        Blanked(m, wide) + Masked(text[|m|..], ms, wide)
  }

  /** The scan does not care in which order the kinds are listed. */
  lemma {:induction false} MaskedAnyOrder(text: string, ms: seq<string>, ns: seq<string>, wide: bool)
    requires AllBraced(ms) && AllBraced(ns) && Elements(ms) == Elements(ns)
    ensures Masked(text, ms, wide) == Masked(text, ns, wide)
    decreases |text|
  {
    if text == [] {
    } else {
      MarkerFound(text, ms);
      MarkerFound(text, ns);
      var a, b := MarkerAt(text, ms), MarkerAt(text, ns);
      assert forall m :: m in ms <==> m in Elements(ms);
      assert forall m :: m in ns <==> m in Elements(ns);
      if a.Some? && b.Some? {
        MaskedAnyOrder(text[|a.value|..], ms, ns, wide);
      } else {
        MaskedAnyOrder(text[1..], ms, ns, wide);
      }
    }
  }

  // ---- One more kind ----

  predicate NoOpen(p: string) {
    forall i | 0 <= i < |p| :: p[i] != '{'
  }

  lemma {:induction false} ReplaceSkips(p: string, x: string, m: string, rep: string)
    requires Braced(m) && NoOpen(p)
    ensures Replace(p + x, m, rep) == p + Replace(x, m, rep)
  {
    if p == [] {
      AppendNothing(x);
      AppendNothing(Replace(x, m, rep));
    } else {
      assert (p + x)[0] == p[0] && (p + x)[1..] == p[1..] + x;
      ReplaceSkips(p[1..], x, m, rep);
      AppendAssociates([p[0]], p[1..], Replace(x, m, rep));
      assert [p[0]] + p[1..] == p;
    }
  }

  lemma ReplaceMatch(m: string, y: string, rep: string)
    requires m != []
    ensures Replace(m + y, m, rep) == rep + Replace(y, m, rep)
  {
    assert m <= m + y && (m + y)[|m|..] == y;
  }

  lemma {:induction false} MaskedSkips(p: string, x: string, ms: seq<string>, wide: bool)
    requires AllBraced(ms) && NoOpen(p)
    ensures Masked(p + x, ms, wide) == p + Masked(x, ms, wide)
  {
    if p == [] {
      AppendNothing(x);
      AppendNothing(Masked(x, ms, wide));
    } else {
      assert (p + x)[0] == p[0] && (p + x)[1..] == p[1..] + x;
      MarkerFound(p + x, ms);
      MaskedSkips(p[1..], x, ms, wide);
      AppendAssociates([p[0]], p[1..], Masked(x, ms, wide));
      assert [p[0]] + p[1..] == p;
    }
  }

  lemma MarkerLeavesBlank(text: string, ms: seq<string>, wide: bool)
    requires AllBraced(ms) && text != [] && MarkerAt(text, ms).Some?
    ensures Masked(text, ms, wide) != [] && Masked(text, ms, wide)[0] == ' '
  {
    MarkerFound(text, ms);
  }

  /** A blank-free beginning of the scan is the beginning of the text itself. */
  lemma {:induction false} MaskedPrefix(text: string, ms: seq<string>, wide: bool, n: nat)
    requires AllBraced(ms) && n <= |Masked(text, ms, wide)|
    requires forall i | 0 <= i < n :: Masked(text, ms, wide)[i] != ' '
    ensures n <= |text| && forall i | 0 <= i < n :: text[i] == Masked(text, ms, wide)[i]
    decreases |text|
  {
    if n == 0 {
    } else {
      var out := Masked(text, ms, wide);
      if MarkerAt(text, ms).Some? { MarkerLeavesBlank(text, ms, wide); }
      var rest := Masked(text[1..], ms, wide);
      assert out == [text[0]] + rest;
      assert forall i | 0 <= i < n - 1 :: rest[i] == out[i + 1];
      MaskedPrefix(text[1..], ms, wide, n - 1);
      assert forall i | 0 < i < n :: text[i] == text[1..][i - 1] && out[i] == rest[i - 1];
    }
  }

  lemma NoNewMatch(text: string, ms: seq<string>, m: string, wide: bool)
    requires AllBraced(ms) && Braced(m) && !(m <= text)
    ensures !(m <= Masked(text, ms, wide))
  {
    var out := Masked(text, ms, wide);
    if m <= out {
      assert forall i | 0 <= i < |m| :: out[i] == m[i];
      MaskedPrefix(text, ms, wide, |m|);
    }
  }

  lemma {:induction false} MarkerAppend(text: string, ms: seq<string>, m: string)
    ensures MarkerAt(text, ms + [m])
         == if MarkerAt(text, ms).Some? then MarkerAt(text, ms) else if m <= text then Some(m) else None
  {
    if ms == [] {
    } else {
      assert (ms + [m])[0] == ms[0] && (ms + [m])[1..] == ms[1..] + [m];
      MarkerAppend(text, ms[1..], m);
    }
  }

  /** Replacing one more kind in the scan is scanning for one more kind. */
  lemma {:induction false} MaskOneMore(text: string, ms: seq<string>, m: string, wide: bool)
    requires AllBraced(ms) && Braced(m)
    ensures AllBraced(ms + [m])
    ensures Replace(Masked(text, ms, wide), m, Blanked(m, wide)) == Masked(text, ms + [m], wide)
    decreases |text|
  {
    var rep := Blanked(m, wide);
    if text != [] {
      MarkerFound(text, ms);
      MarkerAppend(text, ms, m);
      match MarkerAt(text, ms) {
        case Some(found) =>
          MaskOneMore(text[|found|..], ms, m, wide);
          ReplaceSkips(Blanked(found, wide), Masked(text[|found|..], ms, wide), m, rep);
        case None =>
          if m <= text {
            var y := text[|m|..];
            MaskOneMore(y, ms, m, wide);
            assert text == [text[0]] + (m[1..] + y) && text[1..] == m[1..] + y;
            MaskedSkips(m[1..], y, ms, wide);
            AppendAssociates([text[0]], m[1..], Masked(y, ms, wide));
            assert [text[0]] + m[1..] == m;
            ReplaceMatch(m, Masked(y, ms, wide), rep);
          } else {
            NoNewMatch(text, ms, m, wide);
            MaskOneMore(text[1..], ms, m, wide);
            var rest := Masked(text[1..], ms, wide);
            assert ([text[0]] + rest)[1..] == rest;
          }
      }
    }
  }

  lemma {:induction false} NothingMasked(text: string, wide: bool)
    ensures Masked(text, [], wide) == text
  {
    if text == [] {
    } else {
      NothingMasked(text[1..], wide);
      assert [text[0]] + text[1..] == text;
    }
  }

  /** Replacing kind after kind is the single scan for all of them. */
  lemma {:induction false} ReplaceAllIsMasked(text: string, ms: seq<string>, wide: bool)
    requires AllBraced(ms)
    ensures ReplaceAll(text, ms, wide) == Masked(text, ms, wide)
  {
    if ms == [] {
      NothingMasked(text, wide);
    } else {
      var n := |ms| - 1;
      ReplaceAllIsMasked(text, ms[..n], wide);
      assert ms[n] in ms && ms == ms[..n] + [ms[n]];
      MaskOneMore(text, ms[..n], ms[n], wide);
    }
  }

  /** Wide masking keeps every position: each is a blank or the text's own character. */
  lemma {:induction false} MaskedInPlace(text: string, ms: seq<string>)
    requires AllBraced(ms)
    ensures |Masked(text, ms, true)| == |text|
    ensures forall i | 0 <= i < |text| :: Masked(text, ms, true)[i] == ' ' || Masked(text, ms, true)[i] == text[i]
    decreases |text|
  {
    if text == [] {
    } else {
      MarkerFound(text, ms);
      match MarkerAt(text, ms) {
        case None =>
          MaskedInPlace(text[1..], ms);
        case Some(m) =>
          MaskedInPlace(text[|m|..], ms);
          var out := Masked(text, ms, true);
          forall i | 0 <= i < |text| ensures out[i] == ' ' || out[i] == text[i] {
            if i >= |m| { assert out[i] == Masked(text[|m|..], ms, true)[i - |m|]; }
          }
      }
    }
  }
}
