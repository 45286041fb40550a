/** `voiced_spans` from the boolean frames on, and the fixed windows cut from its spans. */
module VoiceActivity {

  /** Some frame of `frames` at or up to `gap` frames after `i` is on. */
  predicate Held(frames: seq<bool>, gap: nat, i: nat) {
    exists j | i <= j < |frames| :: j <= i + gap && frames[j]
  }

  /** The frames once short gaps before a voiced frame are bridged. */
  function Bridged(frames: seq<bool>, gap: nat): (r: seq<bool>)
    ensures |r| == |frames|
  {
    seq(|frames|, i requires 0 <= i < |frames| => Held(frames, gap, i))
  }

  /** What `run` records about the frames from `i` on. */
  ghost predicate Pending(frames: seq<bool>, gap: nat, i: nat, run: nat) {
    && run <= gap
    && (forall j | i <= j < |frames| && j < i + (gap - run) :: !frames[j])
    && (run > 0 ==> i + (gap - run) < |frames| && frames[i + (gap - run)])
  }

  /** The backward pass, in place. */
  method Hangover(on: array<bool>, gap: nat)
    modifies on
    ensures on[..] == Bridged(old(on[..]), gap)
  {
    ghost var frames := on[..];
    var run := 0;
    var i := on.Length;
    while i > 0
      invariant 0 <= i <= on.Length
      invariant forall k | 0 <= k < i :: on[k] == frames[k]
      invariant forall k | i <= k < on.Length :: on[k] == Held(frames, gap, k)
      invariant Pending(frames, gap, i, run)
    {
      i := i - 1;
      if on[i] {
        run := gap;
      } else if run > 0 {
        on[i], run := true, run - 1;
      }
    }
    assert on[..] == Bridged(frames, gap);
  }

  /** The frames from `span.0` up to `span.1` are on and cannot be extended either way. */
  predicate MaximalRun(frames: seq<bool>, span: (nat, nat)) {
    && span.0 < span.1 <= |frames|
    && (forall k | span.0 <= k < span.1 :: frames[k])
    && (span.0 == 0 || !frames[span.0 - 1])
    && (span.1 == |frames| || !frames[span.1])
  }

  predicate InOrder(spans: seq<(nat, nat)>) {
    forall a, b | 0 <= a < b < |spans| :: spans[a].1 < spans[b].0
  }

  predicate Inside(k: nat, span: (nat, nat)) {
    span.0 <= k < span.1
  }

  predicate InSome(k: nat, spans: seq<(nat, nat)>) {
    exists a :: 0 <= a < |spans| && Inside(k, spans[a])
  }

  /** The spans are the maximal on-runs, in order and apart, and together hold every on frame. */
  predicate AreRuns(frames: seq<bool>, spans: seq<(nat, nat)>) {
    && InOrder(spans)
    && (forall a | 0 <= a < |spans| :: MaximalRun(frames, spans[a]))
    && (forall k: nat | k < |frames| && frames[k] :: InSome(k, spans))
  }

  /** The spans are the maximal on-runs that end before frame `upto`, and together hold every on
      frame below it. */
  ghost predicate RunsBelow(frames: seq<bool>, spans: seq<(nat, nat)>, upto: nat) {
    && InOrder(spans)
    && (forall a | 0 <= a < |spans| :: MaximalRun(frames, spans[a]) && spans[a].1 < upto)
    && (forall k: nat | k < |frames| && k < upto && frames[k] :: InSome(k, spans))
  }

  lemma InSomeNext(k: nat, spans: seq<(nat, nat)>, span: (nat, nat))
    requires InSome(k, spans) || Inside(k, span)
    ensures InSome(k, spans + [span])
  {
    if Inside(k, span) {
      assert (spans + [span])[|spans|] == span;
    } else {
      var a :| 0 <= a < |spans| && Inside(k, spans[a]);
      assert (spans + [span])[a] == spans[a];
    }
  }

  /** A run that has ended joins those before it. */
  lemma RunEnds(frames: seq<bool>, spans: seq<(nat, nat)>, start: nat, i: nat)
    requires RunsBelow(frames, spans, start) && MaximalRun(frames, (start, i))
    ensures RunsBelow(frames, spans + [(start, i)], i + 1)
  {
    forall k: nat | k < |frames| && k < i + 1 && frames[k] ensures InSome(k, spans + [(start, i)]) {
      InSomeNext(k, spans, (start, i));
    }
  }

  /** The frames from `start` up to `i` are on, and the one before them is not. */
  predicate Open(frames: seq<bool>, start: nat, i: nat) {
    start < i <= |frames| && (start == 0 || !frames[start - 1]) && forall k | start <= k < i :: frames[k]
  }

  /** The scan over the frames with one off frame appended. */
  method Spans(frames: seq<bool>) returns (spans: seq<(nat, nat)>)
    ensures AreRuns(frames, spans)
  {
    spans := [];
    var open := false;
    var start := 0;
    for i := 0 to |frames| + 1
      invariant RunsBelow(frames, spans, if open then start else i)
      invariant open ==> Open(frames, start, i)
      invariant !open && 0 < i <= |frames| ==> !frames[i - 1]
    {
      var v := i < |frames| && frames[i];
      if v && !open {
        open, start := true, i;
      } else if !v && open {
        RunEnds(frames, spans, start, i);
        spans := spans + [(start, i)];
        open := false;
      }
    }
  }

  // ---- Spans ----

  /** A run of one list is in the other. */
  lemma RunElsewhere(frames: seq<bool>, a: seq<(nat, nat)>, b: seq<(nat, nat)>, i: nat) returns (j: nat)
    requires AreRuns(frames, a) && AreRuns(frames, b) && i < |a|
    ensures j < |b| && b[j] == a[i]
  {
    var span := a[i];
    assert MaximalRun(frames, span) && frames[span.0];
    assert InSome(span.0, b);
    j :| 0 <= j < |b| && Inside(span.0, b[j]);
    assert MaximalRun(frames, b[j]);
  }

  lemma {:induction false} SameBefore(frames: seq<bool>, a: seq<(nat, nat)>, b: seq<(nat, nat)>, n: nat)
    requires AreRuns(frames, a) && AreRuns(frames, b) && n <= |a| && n <= |b|
    ensures forall i | 0 <= i < n :: a[i] == b[i]
  {
    if n == 0 {
    } else {
      SameBefore(frames, a, b, n - 1);
      var j := RunElsewhere(frames, a, b, n - 1);
      var k := RunElsewhere(frames, b, a, n - 1);
      assert MaximalRun(frames, a[n - 1]) && MaximalRun(frames, b[n - 1]);
    }
  }

  /** Only one list of spans is that of the maximal runs. */
  lemma RunsDetermined(frames: seq<bool>, a: seq<(nat, nat)>, b: seq<(nat, nat)>)
    requires AreRuns(frames, a) && AreRuns(frames, b)
    ensures a == b
  {
    if |a| <= |b| {
      SameBefore(frames, a, b, |a|);
      if |a| < |b| { var j := RunElsewhere(frames, b, a, |a|); }
    } else {
      SameBefore(frames, b, a, |b|);
      var j := RunElsewhere(frames, a, b, |b|);
    }
  }

  /** The windows of one span: every start `lo + k * hop` whose window still fits. */
  function WindowsFrom(t: int, hi: int, win: int, hop: int): seq<(int, int)>
    requires hop > 0
    decreases hi - t - win
  {
    if t + win <= hi then [(t, t + win)] + WindowsFrom(t + hop, hi, win, hop) else []
  }

  function AllWindows(spans: seq<(nat, nat)>, win: int, hop: int): seq<(int, int)>
    requires hop > 0
  {
    if spans == [] then []
    else
      var n := |spans| - 1;
      AllWindows(spans[..n], win, hop) + WindowsFrom(spans[n].0, spans[n].1, win, hop)
  }

  /** Ticks are microseconds: so many make a millisecond. */
  const GRAIN: int := 1000

  /** `round(t, 3)`: to the nearest millisecond, halves to the even one. */
  function Rounded(t: int): int {
    var q, r := t / GRAIN, t % GRAIN;
    if 2 * r < GRAIN || (2 * r == GRAIN && q % 2 == 0) then q * GRAIN else (q + 1) * GRAIN
  }

  /** Rounding gives the nearest whole millisecond, and of two as near the even one. */
  lemma RoundedIsNearest(t: int)
    ensures Rounded(t) % 1000 == 0 && -500 <= Rounded(t) - t <= 500
    ensures Rounded(t) - t == 500 || t - Rounded(t) == 500 ==> Rounded(t) / 1000 % 2 == 0
  {
  }

  function Reported(ws: seq<(int, int)>): (r: seq<(int, int)>)
    ensures |r| == |ws|
  {
    seq(|ws|, k requires 0 <= k < |ws| => (Rounded(ws[k].0), Rounded(ws[k].1)))
  }

  /** `windows`, from the spans on. */
  method Windows(spans: seq<(nat, nat)>, win: int, hop: int) returns (out: seq<(int, int)>)
    requires hop > 0
    ensures out == Reported(AllWindows(spans, win, hop))
  {
    out := [];
    ghost var exact: seq<(int, int)> := [];
    for i := 0 to |spans|
      invariant exact == AllWindows(spans[..i], win, hop) && out == Reported(exact)
    {
      var lo, hi := spans[i].0, spans[i].1;
      var t: int := lo;
      ghost var before := exact;
      while t + win <= hi
        invariant exact + WindowsFrom(t, hi, win, hop) == before + WindowsFrom(lo, hi, win, hop)
        invariant out == Reported(exact)
        decreases hi - t - win
      {
        out := out + [(Rounded(t), Rounded(t + win))];
        exact := exact + [(t, t + win)];
        t := t + hop;
      }
      assert spans[..i + 1][..i] == spans[..i];
    }
    assert spans[..|spans|] == spans;
  }

  // ---- Spans in time ----

  /** At 100 frames a second, a frame is ten of them. */
  const FRAME: int := 10 * GRAIN

  /** `(start / hz, i / hz)`, in ticks. */
  function Timed(runs: seq<(nat, nat)>): (r: seq<(nat, nat)>)
    ensures |r| == |runs|
  {
    seq(|runs|, a requires 0 <= a < |runs| => (FRAME * runs[a].0, FRAME * runs[a].1))
  }

  /** `voiced_spans` on frames already thresholded: the maximal runs of the bridged frames, in time. */
  method VoicedSpans(on: array<bool>, gap: nat) returns (spans: seq<(nat, nat)>, ghost runs: seq<(nat, nat)>)
    modifies on
    ensures AreRuns(Bridged(old(on[..]), gap), runs) && spans == Timed(runs)
  {
    Hangover(on, gap);
    var found := Spans(on[..]);
    runs := found;
    spans := Timed(found);
  }

  /** What the windows ask of spans: in order, not empty, and beginning and ending on whole
      milliseconds. */
  predicate Regular(spans: seq<(nat, nat)>) {
    && InOrder(spans)
    && forall a | 0 <= a < |spans| :: spans[a].0 < spans[a].1 && spans[a].0 % GRAIN == 0 && spans[a].1 % GRAIN == 0
  }

  lemma FrameIsWhole(k: nat)
    ensures FRAME * k % GRAIN == 0
  {
  }

  lemma TimedIsRegular(frames: seq<bool>, runs: seq<(nat, nat)>)
    requires AreRuns(frames, runs)
    ensures Regular(Timed(runs))
    ensures forall a | 0 <= a < |runs| :: Timed(runs)[a] == (10_000 * runs[a].0, 10_000 * runs[a].1)
  {
    var spans := Timed(runs);
    forall a | 0 <= a < |runs| ensures spans[a].0 < spans[a].1 && spans[a].0 % GRAIN == 0 && spans[a].1 % GRAIN == 0 {
      assert MaximalRun(frames, runs[a]);
      FrameIsWhole(runs[a].0);
      FrameIsWhole(runs[a].1);
    }
    forall a, b | 0 <= a < b < |runs| ensures spans[a].1 < spans[b].0 {
      assert runs[a].1 < runs[b].0;
    }
  }

  // ---- Windows ----

  /** `ws` starts at `t`, advances by the hop, and stops only when the next window would not fit. */
  ghost predicate Cut(ws: seq<(int, int)>, t: int, hi: int, win: int, hop: int) {
    && (forall k | 0 <= k < |ws| :: t <= ws[k].0 && ws[k].1 == ws[k].0 + win && ws[k].1 <= hi)
    && (ws != [] ==> ws[0].0 == t)
    && (forall j, k | 0 <= j < |ws| && k == j + 1 && k < |ws| :: ws[k].0 == ws[j].0 + hop)
    && (if ws == [] then t + win > hi else ws[|ws| - 1].0 + hop + win > hi)
  }

  lemma CutPrepend(ws: seq<(int, int)>, t: int, hi: int, win: int, hop: int)
    requires Cut(ws, t + hop, hi, win, hop) && t + win <= hi && hop > 0
    ensures Cut([(t, t + win)] + ws, t, hi, win, hop)
  {
  }

  lemma {:induction false} WindowsAreCut(t: int, hi: int, win: int, hop: int)
    requires hop > 0
    ensures Cut(WindowsFrom(t, hi, win, hop), t, hi, win, hop)
    decreases hi - t - win
  {
    if t + win <= hi {
      WindowsAreCut(t + hop, hi, win, hop);
      CutPrepend(WindowsFrom(t + hop, hi, win, hop), t, hi, win, hop);
    }
  }

  ghost predicate Apart(ws: seq<(int, int)>) {
    forall j, k | 0 <= j < k < |ws| :: ws[j].1 <= ws[k].0
  }

  lemma {:induction false} HopsApart(t: int, hi: int, win: int, hop: int)
    requires hop > 0 && hop >= win
    ensures Apart(WindowsFrom(t, hi, win, hop))
    decreases hi - t - win
  {
    if t + win <= hi {
      HopsApart(t + hop, hi, win, hop);
      WindowsAreCut(t + hop, hi, win, hop);
    }
  }

  /** Every window lies inside one span. */
  lemma {:induction false} WindowInSpan(spans: seq<(nat, nat)>, win: int, hop: int, k: nat) returns (a: nat)
    requires hop > 0 && k < |AllWindows(spans, win, hop)|
    ensures a < |spans|
    ensures spans[a].0 <= AllWindows(spans, win, hop)[k].0 && AllWindows(spans, win, hop)[k].1 <= spans[a].1
  {
    var n := |spans| - 1;
    var earlier := AllWindows(spans[..n], win, hop);
    if k < |earlier| {
      a := WindowInSpan(spans[..n], win, hop, k);
    } else {
      a := n;
      WindowsAreCut(spans[n].0, spans[n].1, win, hop);
    }
  }

  /** No span's windows are left out. */
  lemma {:induction false} EveryWindow(spans: seq<(nat, nat)>, win: int, hop: int, a: nat)
    requires hop > 0 && a < |spans|
    ensures forall w | w in WindowsFrom(spans[a].0, spans[a].1, win, hop) :: w in AllWindows(spans, win, hop)
  {
    var n := |spans| - 1;
    if a < n {
      EveryWindow(spans[..n], win, hop, a);
    }
  }

  /** With a hop of at least the window, no two windows share a tick. */
  lemma {:induction false} WindowsApart(spans: seq<(nat, nat)>, win: int, hop: int)
    requires hop > 0 && hop >= win && InOrder(spans) && forall a | 0 <= a < |spans| :: spans[a].0 < spans[a].1
    ensures Apart(AllWindows(spans, win, hop))
  {
    if spans == [] {
    } else {
      var n := |spans| - 1;
      var earlier, last := AllWindows(spans[..n], win, hop), WindowsFrom(spans[n].0, spans[n].1, win, hop);
      WindowsApart(spans[..n], win, hop);
      HopsApart(spans[n].0, spans[n].1, win, hop);
      WindowsAreCut(spans[n].0, spans[n].1, win, hop);
      forall j, k | 0 <= j < |earlier| && 0 <= k < |last| ensures earlier[j].1 <= last[k].0 {
        var a := WindowInSpan(spans[..n], win, hop, j);
        assert spans[a].1 < spans[n].0;
      }
    }
  }

  // ---- Rounding keeps both ----

  /** Rounding crosses no whole millisecond. */
  lemma RoundedKeeps(whole: int, t: int)
    requires whole % GRAIN == 0
    ensures whole <= t ==> whole <= Rounded(t)
    ensures t <= whole ==> Rounded(t) <= whole
  {
  }

  lemma RoundedRises(t: int, u: int)
    requires t <= u
    ensures Rounded(t) <= Rounded(u)
  {
  }

  /** Where the spans begin and end on whole milliseconds, every reported window lies inside one. */
  lemma ReportedInSpan(spans: seq<(nat, nat)>, win: int, hop: int, k: nat) returns (a: nat)
    requires hop > 0 && k < |AllWindows(spans, win, hop)|
    requires Regular(spans)
    ensures a < |spans|
    ensures var w := Reported(AllWindows(spans, win, hop))[k]; spans[a].0 <= w.0 && w.1 <= spans[a].1
  {
    a := WindowInSpan(spans, win, hop, k);
    var w := AllWindows(spans, win, hop)[k];
    RoundedKeeps(spans[a].0, w.0);
    RoundedKeeps(spans[a].1, w.1);
  }

  /** With a hop of at least the window, no two reported windows share a tick. */
  lemma ReportedApart(spans: seq<(nat, nat)>, win: int, hop: int)
    requires hop > 0 && hop >= win && Regular(spans)
    ensures Apart(Reported(AllWindows(spans, win, hop)))
  {
    var ws := AllWindows(spans, win, hop);
    WindowsApart(spans, win, hop);
    forall j, k | 0 <= j < k < |ws| ensures Reported(ws)[j].1 <= Reported(ws)[k].0 {
      RoundedRises(ws[j].1, ws[k].0);
    }
  }

  // ---- The whole pass ----

  /** `windows`, from the frames on. */
  method VoicedWindows(on: array<bool>, gap: nat, win: int, hop: int)
    returns (out: seq<(int, int)>, ghost spans: seq<(nat, nat)>, ghost runs: seq<(nat, nat)>)
    requires hop > 0
    modifies on
    ensures AreRuns(Bridged(old(on[..]), gap), runs) && spans == Timed(runs) && Regular(spans)
    ensures out == Reported(AllWindows(spans, win, hop))
    ensures forall k | 0 <= k < |out| ::
      exists a :: 0 <= a < |spans| && spans[a].0 <= out[k].0 && out[k].1 <= spans[a].1
    ensures hop >= win ==> Apart(out)
  {
    var found;
    found, runs := VoicedSpans(on, gap);
    spans := found;
    TimedIsRegular(Bridged(old(on[..]), gap), runs);
    out := Windows(found, win, hop);
    forall k | 0 <= k < |out|
      ensures exists a :: 0 <= a < |spans| && spans[a].0 <= out[k].0 && out[k].1 <= spans[a].1
    {
      var a := ReportedInSpan(spans, win, hop, k);
    }
    if hop >= win { ReportedApart(spans, win, hop); }
  }
}
