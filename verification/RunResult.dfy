/** The registered result: what is built from the receipts of a run, live or replayed. */
module RunResult {
  import opened Common
  import opened Evidence
  import opened RunClock
  import opened Receipts
  import Classification
  import ResponseReading
  import Exposure

  const ELAPSED_LIMIT := 900.0
  const KEEP_LIMIT := 64

  datatype Preflight = Preflight(spec: CallSpec, sabotage: Option<Verdict>)

  datatype CallText = CallText(system: string, user: string, schema: string)

  datatype Summary = Summary(decisions: seq<Decision>, keep: nat, abstain: nat, preflightElapsed: real,
                             corpusElapsed: real, transportElapsed: real, authoritative: Option<real>)

  datatype Body = Body(identityStart: Identity, identityEnd: Identity, preflight: seq<Receipt>, corpus: seq<Receipt>,
                       summary: Summary, exposure: seq<seq<set<string>>>, recalled: seq<set<string>>)

  datatype Final = Final(body: Body, digest: string)

  /** Everything registered before the run: the manifest, the locked events, the three preflight
      calls, the request text of a batch, and the result digest. */
  datatype Setup = Setup(
    registered: Identity,
    candidates: seq<Candidate>,
    batchSize: nat,
    expectedBatches: nat,
    expectedDecisions: nat,
    preflight: seq<Preflight>,
    fixtureVerdicts: seq<Verdict>,
    events: seq<Exposure.LedgerEvent>,
    request: seq<Candidate> -> CallText,
    resultDigest: Body -> string)

  /** How a receipt is validated against the call it stands for. */
  type ReceiptCheck = (Receipt, CallSpec, Identity) -> Result<Classification.Decoded, RunError>

  function DecisionIds(ds: seq<Decision>): (r: seq<string>)
    ensures |r| == |ds|
  {
    Each((d: Decision) => d.id, ds)
  }

  /** A receipt that passes decides the call's candidates, once each and in order. */
  ghost predicate DecidesInOrder(check: ReceiptCheck) {
    forall r, spec, identity :: check(r, spec, identity).Ok? ==>
      DecisionIds(check(r, spec, identity).value.items) == spec.ids
  }

  /** A receipt check that is `validate_call_receipt`. */
  ghost predicate IsValidator(o: Oracle, check: ReceiptCheck) {
    forall r, spec, identity {:trigger ValidateReceipt(o, r, spec, identity)} ::
      check(r, spec, identity) == ValidateReceipt(o, r, spec, identity)
  }

  lemma ValidatorDecides(o: Oracle, check: ReceiptCheck)
    requires IsValidator(o, check)
    ensures DecidesInOrder(check)
  {
    forall r, spec, identity | check(r, spec, identity).Ok?
      ensures DecisionIds(check(r, spec, identity).value.items) == spec.ids
    {
      assert check(r, spec, identity) == ValidateReceipt(o, r, spec, identity);
      ResponseReading.ReadDecides(o.parse(r.base.raw).value, spec.ids);
    }
  }

  /** `candidate_batches`. */
  function Batches(candidates: seq<Candidate>, size: nat): seq<seq<Candidate>>
    requires size > 0
  {
    if candidates == [] then []
    else if |candidates| <= size then [candidates]
    else [candidates[..size]] + Batches(candidates[size..], size)
  }

  // ---- Batches ----

  lemma {:induction false} BatchesConcat(candidates: seq<Candidate>, size: nat)
    requires size > 0
    ensures Concat(Batches(candidates, size)) == candidates
    ensures forall b | b in Batches(candidates, size) :: b != [] && |b| <= size
    ensures forall i | 0 <= i < |Batches(candidates, size)| - 1 :: |Batches(candidates, size)[i]| == size
  {
    if candidates == [] {
    } else if |candidates| <= size {
      assert Concat([candidates]) == candidates + Concat([]);
    } else {
      BatchesConcat(candidates[size..], size);
      assert candidates == candidates[..size] + candidates[size..];
    }
  }

  function Ids(batch: seq<Candidate>): (r: seq<string>)
    ensures |r| == |batch|
  {
    Each((c: Candidate) => c.id, batch)
  }

  /** The call for the `k`-th batch, counted from 0. */
  function BatchSpec(setup: Setup, batch: seq<Candidate>, k: nat): CallSpec {
    var text := setup.request(batch);
    CallSpec(|setup.preflight| + k + 1, "corpus-batch", Some(k + 1), "registered-classifier", text.system, text.user,
             text.schema, Ids(batch))
  }

  // ---- Preflight ----

  function VerdictsOf(items: seq<Decision>): seq<Verdict> {
    Each((d: Decision) => d.verdict, items)
  }

  /** The fixture call agrees everywhere; a sabotaged call shows its commanded pattern, and that
      pattern is not the fixture's. */
  predicate SemanticsOk(setup: Setup, decoded: Classification.Decoded, sabotage: Option<Verdict>) {
    match sabotage
    case None => VerdictsOf(decoded.items) == setup.fixtureVerdicts
    case Some(v) =>
      (forall d | d in decoded.items :: d.verdict == v) && VerdictsOf(decoded.items) != setup.fixtureVerdicts
  }

  /** The items carry the fixture's verdicts, one for one. */
  ghost predicate LikeFixture(setup: Setup, items: seq<Decision>) {
    && |items| == |setup.fixtureVerdicts|
    && forall i | 0 <= i < |items| :: items[i].verdict == setup.fixtureVerdicts[i]
  }

  /** What a preflight call has to show: the fixture call the fixture's verdicts, a sabotaged call
      its own verdict throughout, where that is not what the fixture shows. */
  ghost predicate Shown(setup: Setup, items: seq<Decision>, sabotage: Option<Verdict>) {
    match sabotage
    case None => LikeFixture(setup, items)
    case Some(v) => !LikeFixture(setup, items) && forall i | 0 <= i < |items| :: items[i].verdict == v
  }

  lemma SemanticsMean(setup: Setup, decoded: Classification.Decoded, sabotage: Option<Verdict>)
    ensures SemanticsOk(setup, decoded, sabotage) <==> Shown(setup, decoded.items, sabotage)
  {
    var verdicts := VerdictsOf(decoded.items);
    assert LikeFixture(setup, decoded.items) ==> verdicts == setup.fixtureVerdicts;
    assert forall i | 0 <= i < |decoded.items| :: decoded.items[i] in decoded.items;
  }

  /** Transport time retained by receipts. */
  ghost function TimeOf(receipts: seq<Receipt>): real {
    if receipts == [] then 0.0 else TimeOf(receipts[..|receipts| - 1]) + receipts[|receipts| - 1].base.elapsed
  }

  /** The first `n` preflight receipts re-derive; their summed transport time. */
  function PreflightTime(check: ReceiptCheck, setup: Setup, identity: Identity, receipts: seq<Receipt>, n: nat)
    : Result<real, RunError>
    requires n <= |receipts| && n <= |setup.preflight|
  {
    if n == 0 then Ok(0.0)
    else
      match PreflightTime(check, setup, identity, receipts, n - 1)
      case Refused(e) => Refused(e)
      case Ok(elapsed) =>
        match check(receipts[n - 1], setup.preflight[n - 1].spec, identity)
        case Refused(e) => Refused(e)
        case Ok(decoded) =>
          if SemanticsOk(setup, decoded, setup.preflight[n - 1].sabotage) then
            Ok(elapsed + receipts[n - 1].base.elapsed)
          else Refused(SemanticsRefused)
  }

  lemma {:induction false} PreflightStops(check: ReceiptCheck, setup: Setup, identity: Identity, receipts: seq<Receipt>,
                                          m: nat, n: nat)
    requires m <= n <= |receipts| && n <= |setup.preflight|
    requires PreflightTime(check, setup, identity, receipts, m).Refused?
    ensures PreflightTime(check, setup, identity, receipts, n) == PreflightTime(check, setup, identity, receipts, m)
  {
    if m < n { PreflightStops(check, setup, identity, receipts, m, n - 1); }
  }

  /** `validate_preflight_receipts`. */
  method ValidatePreflight(check: ReceiptCheck, setup: Setup, identity: Identity, receipts: seq<Receipt>)
    returns (r: Result<real, RunError>)
    ensures |receipts| != |setup.preflight| ==> r == Refused(WrongReceiptCount)
    ensures |receipts| == |setup.preflight| ==> r == PreflightTime(check, setup, identity, receipts, |receipts|)
  {
    if |receipts| != |setup.preflight| {
      return Refused(WrongReceiptCount);
    }
    var elapsed := 0.0;
    for k := 0 to |receipts|
      invariant PreflightTime(check, setup, identity, receipts, k) == Ok(elapsed)
    {
      var decoded := check(receipts[k], setup.preflight[k].spec, identity);
      if decoded.Refused? {
        PreflightStops(check, setup, identity, receipts, k + 1, |receipts|);
        return Refused(decoded.error);
      }
      if !SemanticsOk(setup, decoded.value, setup.preflight[k].sabotage) {
        PreflightStops(check, setup, identity, receipts, k + 1, |receipts|);
        return Refused(SemanticsRefused);
      }
      elapsed := elapsed + receipts[k].base.elapsed;
    }
    r := Ok(elapsed);
  }

  lemma {:induction false} PreflightPrefix(check: ReceiptCheck, setup: Setup, identity: Identity,
                                           receipts: seq<Receipt>, receipt: Receipt, n: nat)
    requires n <= |receipts| && n <= |setup.preflight|
    ensures PreflightTime(check, setup, identity, receipts + [receipt], n)
         == PreflightTime(check, setup, identity, receipts, n)
  {
    if n == 0 {
    } else {
      PreflightPrefix(check, setup, identity, receipts, receipt, n - 1);
    }
  }

  ghost predicate PreflightAgrees(check: ReceiptCheck, setup: Setup, identity: Identity, receipt: Receipt, k: nat)
    requires k < |setup.preflight|
  {
    var decoded := check(receipt, setup.preflight[k].spec, identity);
    decoded.Ok? && Shown(setup, decoded.value.items, setup.preflight[k].sabotage)
  }

  /** What the preflight loop finds: every receipt validates and agrees, and their time is summed. */
  lemma {:induction false} PreflightMeans(check: ReceiptCheck, setup: Setup, identity: Identity,
                                          receipts: seq<Receipt>, n: nat)
    requires n <= |receipts| && n <= |setup.preflight|
    ensures PreflightTime(check, setup, identity, receipts, n).Ok? <==>
      forall k | 0 <= k < n :: PreflightAgrees(check, setup, identity, receipts[k], k)
    ensures PreflightTime(check, setup, identity, receipts, n).Ok? ==>
      PreflightTime(check, setup, identity, receipts, n).value == TimeOf(receipts[..n])
  {
    if n > 0 {
      PreflightMeans(check, setup, identity, receipts, n - 1);
      assert receipts[..n][..n - 1] == receipts[..n - 1];
      var decoded := check(receipts[n - 1], setup.preflight[n - 1].spec, identity);
      if decoded.Ok? {
        SemanticsMean(setup, decoded.value, setup.preflight[n - 1].sabotage);
      }
    }
  }

  /** A further receipt that validates and agrees adds its own time. */
  lemma PreflightNext(check: ReceiptCheck, setup: Setup, identity: Identity, receipts: seq<Receipt>, receipt: Receipt,
                      elapsed: real)
    requires |receipts| < |setup.preflight|
    requires PreflightTime(check, setup, identity, receipts, |receipts|) == Ok(elapsed)
    requires PreflightAgrees(check, setup, identity, receipt, |receipts|)
    ensures PreflightTime(check, setup, identity, receipts + [receipt], |receipts| + 1)
         == Ok(elapsed + receipt.base.elapsed)
  {
    PreflightPrefix(check, setup, identity, receipts, receipt, |receipts|);
    SemanticsMean(setup, check(receipt, setup.preflight[|receipts|].spec, identity).value,
                  setup.preflight[|receipts|].sabotage);
  }

  // ---- Corpus ----

  /** The first `n` batch receipts re-derive; their decisions and their summed transport time. */
  function CorpusDecisions(check: ReceiptCheck, setup: Setup, identity: Identity, batches: seq<seq<Candidate>>,
                           receipts: seq<Receipt>, n: nat): Result<(seq<Decision>, real), RunError>
    requires n <= |receipts| && n <= |batches|
  {
    if n == 0 then Ok(([], 0.0))
    else
      match CorpusDecisions(check, setup, identity, batches, receipts, n - 1)
      case Refused(e) => Refused(e)
      case Ok((decisions, elapsed)) =>
        match check(receipts[n - 1], BatchSpec(setup, batches[n - 1], n - 1), identity)
        case Refused(e) => Refused(e)
        case Ok(decoded) => Ok((decisions + decoded.items, elapsed + receipts[n - 1].base.elapsed))
  }

  /** The decisions of the `k`-th batch's receipt. */
  ghost function DecidedBy(check: ReceiptCheck, setup: Setup, identity: Identity, batches: seq<seq<Candidate>>,
                           receipts: seq<Receipt>, k: nat): seq<Decision>
    requires k < |receipts| && k < |batches|
  {
    match check(receipts[k], BatchSpec(setup, batches[k], k), identity)
    case Ok(decoded) => decoded.items
    case Refused(_) => []
  }

  /** What the corpus loop finds: every receipt validates as its own batch's, their decisions are
      put together and their time is summed. */
  lemma {:induction false} CorpusMeans(check: ReceiptCheck, setup: Setup, identity: Identity,
                                       batches: seq<seq<Candidate>>, receipts: seq<Receipt>, n: nat)
    requires n <= |receipts| && n <= |batches|
    ensures CorpusDecisions(check, setup, identity, batches, receipts, n).Ok? <==>
      forall k | 0 <= k < n :: check(receipts[k], BatchSpec(setup, batches[k], k), identity).Ok?
    ensures CorpusDecisions(check, setup, identity, batches, receipts, n).Ok? ==>
      CorpusDecisions(check, setup, identity, batches, receipts, n).value
        == (Concat(seq(n, k requires 0 <= k < n => DecidedBy(check, setup, identity, batches, receipts, k))),
            TimeOf(receipts[..n]))
  {
    if n > 0 {
      CorpusMeans(check, setup, identity, batches, receipts, n - 1);
      assert receipts[..n][..n - 1] == receipts[..n - 1];
      var before := seq(n - 1, k requires 0 <= k < n - 1 => DecidedBy(check, setup, identity, batches, receipts, k));
      var last := DecidedBy(check, setup, identity, batches, receipts, n - 1);
      assert seq(n, k requires 0 <= k < n => DecidedBy(check, setup, identity, batches, receipts, k))
        == before + [last];
      ConcatAppend(before, last);
    }
  }

  /** `validate_corpus_receipts`, as a function. */
  function CorpusChecked(check: ReceiptCheck, setup: Setup, identity: Identity, receipts: seq<Receipt>)
    : Result<(seq<Decision>, real), RunError>
    requires setup.batchSize > 0
  {
    var batches := Batches(setup.candidates, setup.batchSize);
    if |batches| != setup.expectedBatches then Refused(WrongBatchCount)
    else if |receipts| != setup.expectedBatches then Refused(WrongReceiptCount)
    else
      match CorpusDecisions(check, setup, identity, batches, receipts, |receipts|)
      case Refused(e) => Refused(e)
      case Ok((decisions, elapsed)) =>
        if |decisions| != setup.expectedDecisions || DecisionIds(decisions) != Ids(setup.candidates)
          || !Distinct(DecisionIds(decisions)) then Refused(WrongDecisions)
        else Ok((decisions, elapsed))
  }

  lemma {:induction false} CorpusStops(check: ReceiptCheck, setup: Setup, identity: Identity,
                                       batches: seq<seq<Candidate>>, receipts: seq<Receipt>, m: nat, n: nat)
    requires m <= n <= |receipts| && n <= |batches|
    requires CorpusDecisions(check, setup, identity, batches, receipts, m).Refused?
    ensures CorpusDecisions(check, setup, identity, batches, receipts, n)
         == CorpusDecisions(check, setup, identity, batches, receipts, m)
  {
    if m < n { CorpusStops(check, setup, identity, batches, receipts, m, n - 1); }
  }

  method ValidateCorpus(check: ReceiptCheck, setup: Setup, identity: Identity, receipts: seq<Receipt>)
    returns (r: Result<(seq<Decision>, real), RunError>)
    requires setup.batchSize > 0
    ensures r == CorpusChecked(check, setup, identity, receipts)
  {
    var batches := Batches(setup.candidates, setup.batchSize);
    if |batches| != setup.expectedBatches {
      return Refused(WrongBatchCount);
    }
    if |receipts| != setup.expectedBatches {
      return Refused(WrongReceiptCount);
    }
    var decisions: seq<Decision> := [];
    var elapsed := 0.0;
    for k := 0 to |receipts|
      invariant CorpusDecisions(check, setup, identity, batches, receipts, k) == Ok((decisions, elapsed))
    {
      var decoded := check(receipts[k], BatchSpec(setup, batches[k], k), identity);
      if decoded.Refused? {
        CorpusStops(check, setup, identity, batches, receipts, k + 1, |receipts|);
        return Refused(decoded.error);
      }
      decisions := decisions + decoded.value.items;
      elapsed := elapsed + receipts[k].base.elapsed;
    }
    if |decisions| != setup.expectedDecisions || DecisionIds(decisions) != Ids(setup.candidates)
      || !Distinct(DecisionIds(decisions))
    {
      return Refused(WrongDecisions);
    }
    r := Ok((decisions, elapsed));
  }

  lemma {:induction false} CorpusPrefix(check: ReceiptCheck, setup: Setup, identity: Identity,
                                        batches: seq<seq<Candidate>>, receipts: seq<Receipt>, receipt: Receipt, n: nat)
    requires n <= |receipts| && n <= |batches|
    ensures CorpusDecisions(check, setup, identity, batches, receipts + [receipt], n)
         == CorpusDecisions(check, setup, identity, batches, receipts, n)
  {
    if n == 0 {
    } else {
      CorpusPrefix(check, setup, identity, batches, receipts, receipt, n - 1);
    }
  }

  /** A further receipt that validates adds its own decisions and time. */
  lemma CorpusNext(check: ReceiptCheck, setup: Setup, identity: Identity, batches: seq<seq<Candidate>>,
                   receipts: seq<Receipt>, receipt: Receipt, decisions: seq<Decision>, elapsed: real)
    requires |receipts| < |batches|
    requires CorpusDecisions(check, setup, identity, batches, receipts, |receipts|) == Ok((decisions, elapsed))
    requires check(receipt, BatchSpec(setup, batches[|receipts|], |receipts|), identity).Ok?
    ensures var decoded := check(receipt, BatchSpec(setup, batches[|receipts|], |receipts|), identity).value;
            CorpusDecisions(check, setup, identity, batches, receipts + [receipt], |receipts| + 1)
              == Ok((decisions + decoded.items, elapsed + receipt.base.elapsed))
  {
    CorpusPrefix(check, setup, identity, batches, receipts, receipt, |receipts|);
  }

  /** Whatever validates decides the first `n` batches' candidates, once each and in order. */
  lemma {:induction false} DecidesBatches(check: ReceiptCheck, setup: Setup, identity: Identity,
                                          batches: seq<seq<Candidate>>, receipts: seq<Receipt>, n: nat)
    requires DecidesInOrder(check)
    requires n <= |receipts| && n <= |batches| && CorpusDecisions(check, setup, identity, batches, receipts, n).Ok?
    ensures DecisionIds(CorpusDecisions(check, setup, identity, batches, receipts, n).value.0)
         == Ids(Concat(batches[..n]))
  {
    if n == 0 {
    } else {
      DecidesBatches(check, setup, identity, batches, receipts, n - 1);
      var before := CorpusDecisions(check, setup, identity, batches, receipts, n - 1).value.0;
      var spec := BatchSpec(setup, batches[n - 1], n - 1);
      var items := check(receipts[n - 1], spec, identity).value.items;
      PrefixNext(batches, n - 1);
      ConcatAppend(batches[..n - 1], batches[n - 1]);
      assert DecisionIds(before + items) == DecisionIds(before) + DecisionIds(items);
    }
  }

  /** Ordered coverage needs no check of its own: receipts that validate decide exactly the
      manifest's candidates, once and in order. */
  lemma DecidesManifest(check: ReceiptCheck, setup: Setup, identity: Identity, receipts: seq<Receipt>)
    requires DecidesInOrder(check)
    requires setup.batchSize > 0 && |receipts| == |Batches(setup.candidates, setup.batchSize)|
    requires var batches := Batches(setup.candidates, setup.batchSize);
             CorpusDecisions(check, setup, identity, batches, receipts, |receipts|).Ok?
    ensures var batches := Batches(setup.candidates, setup.batchSize);
            DecisionIds(CorpusDecisions(check, setup, identity, batches, receipts, |receipts|).value.0)
              == Ids(setup.candidates)
  {
    var batches := Batches(setup.candidates, setup.batchSize);
    DecidesBatches(check, setup, identity, batches, receipts, |receipts|);
    BatchesConcat(setup.candidates, setup.batchSize);
    assert batches[..|receipts|] == batches;
  }

  // ---- The result ----

  /** For each locked bundle, the candidates that show it. */
  function ExposureRows(candidates: seq<Candidate>, events: seq<Exposure.LedgerEvent>): seq<seq<set<string>>> {
    seq(|events|, k requires 0 <= k < |events| =>
      seq(|events[k].bundles|, m requires 0 <= m < |events[k].bundles| =>
        set c | c in candidates && Shows(c, events[k].bundles[m]) :: c.id))
  }

  function RecallRows(candidates: seq<Candidate>, decisions: seq<Decision>, events: seq<Exposure.LedgerEvent>)
    : seq<set<string>>
  {
    seq(|events|, k requires 0 <= k < |events| => Options(events[k].bundles, candidates) * KeptIds(decisions))
  }

  /** `_summary`. */
  function Summarize(decisions: seq<Decision>, preflight: real, corpus: real, authoritative: Option<real>)
    : Result<Summary, RunError>
  {
    var keep := Tally(decisions, KEEP);
    if keep > KEEP_LIMIT then Refused(TooManyKept)
    else if authoritative.Some? && authoritative.value < preflight + corpus then Refused(ElapsedTooShort)
    else if authoritative.Some? && authoritative.value > ELAPSED_LIMIT then Refused(ElapsedTooLong)
    else Ok(Summary(decisions, keep, Tally(decisions, ABSTAIN), preflight, corpus, preflight + corpus, authoritative))
  }

  /** `build_registered_result`, as a function of what it is given. */
  ghost function Built(check: ReceiptCheck, setup: Setup, start: Identity, end: Identity, preflight: seq<Receipt>,
                       corpus: seq<Receipt>, exposure: seq<seq<set<string>>>, authoritative: Option<real>)
    : Result<Final, RunError>
    requires setup.batchSize > 0
  {
    if end != start then Refused(IdentityChanged)
    else if |preflight| != |setup.preflight| then Refused(WrongReceiptCount)
    else
      match PreflightTime(check, setup, start, preflight, |preflight|)
      case Refused(e) => Refused(e)
      case Ok(preflightElapsed) =>
        match CorpusChecked(check, setup, start, corpus)
        case Refused(e) => Refused(e)
        case Ok((decisions, corpusElapsed)) =>
          if !Exposure.AllExposed(setup.candidates, setup.events) then Refused(NotExposed)
          else if exposure != ExposureRows(setup.candidates, setup.events) then Refused(ExposureChanged)
          else if !Exposure.AllRecalled(setup.candidates, decisions, setup.events) then Refused(NotRecalled)
          else
            match Summarize(decisions, preflightElapsed, corpusElapsed, authoritative)
            case Refused(e) => Refused(e)
            case Ok(summary) =>
              var body := Body(start, end, preflight, corpus, summary, exposure,
                               RecallRows(setup.candidates, decisions, setup.events));
              Ok(Final(body, setup.resultDigest(body)))
  }

  method BuildResult(check: ReceiptCheck, setup: Setup, start: Identity, end: Identity, preflight: seq<Receipt>,
                     corpus: seq<Receipt>, exposure: seq<seq<set<string>>>, authoritative: Option<real>)
    returns (r: Result<Final, RunError>)
    requires setup.batchSize > 0
    ensures r == Built(check, setup, start, end, preflight, corpus, exposure, authoritative)
  {
    if end != start {
      return Refused(IdentityChanged);
    }
    var preflightElapsed := ValidatePreflight(check, setup, start, preflight);
    if preflightElapsed.Refused? {
      return Refused(preflightElapsed.error);
    }
    var checked := ValidateCorpus(check, setup, start, corpus);
    if checked.Refused? {
      return Refused(checked.error);
    }
    var (decisions, corpusElapsed) := checked.value;
    var exposed := Exposure.PacketExposure(setup.candidates, setup.events);
    if !exposed {
      return Refused(NotExposed);
    }
    if exposure != ExposureRows(setup.candidates, setup.events) {
      return Refused(ExposureChanged);
    }
    var report := Exposure.EventLedgerReport(setup.candidates, decisions, setup.events);
    if report.Refused? {
      return Refused(NotRecalled);
    }
    assert report.value == RecallRows(setup.candidates, decisions, setup.events);
    var summary := Summarize(decisions, preflightElapsed.value, corpusElapsed, authoritative);
    if summary.Refused? {
      return Refused(summary.error);
    }
    var body := Body(start, end, preflight, corpus, summary.value, exposure, report.value);
    r := Ok(Final(body, setup.resultDigest(body)));
  }

  /** Why a result may not be built of receipts that validate. */
  predicate BuildFault(e: RunError) {
    e.WrongBatchCount? || e.WrongDecisions? || e.NotRecalled? || e.TooManyKept?
  }

  /** The registered gates on the decisions of a run. */
  ghost predicate Passes(setup: Setup, batches: seq<seq<Candidate>>, decisions: seq<Decision>) {
    && |batches| == setup.expectedBatches
    && |setup.candidates| == setup.expectedDecisions && Distinct(Ids(setup.candidates))
    && Exposure.AllRecalled(setup.candidates, decisions, setup.events)
    && |KeptIds(decisions)| <= 64
  }

  /** Which gate stops decisions that do not pass. */
  ghost function FirstMissed(setup: Setup, batches: seq<seq<Candidate>>, decisions: seq<Decision>): RunError {
    if |batches| != setup.expectedBatches then WrongBatchCount
    else if |setup.candidates| != setup.expectedDecisions || !Distinct(Ids(setup.candidates)) then WrongDecisions
    else if !Exposure.AllRecalled(setup.candidates, decisions, setup.events) then NotRecalled
    else TooManyKept
  }

  /** The summary of those decisions and of those receipts' time. */
  ghost predicate Summarizes(s: Summary, decisions: seq<Decision>, preflight: seq<Receipt>, corpus: seq<Receipt>) {
    && s.decisions == decisions
    && s.keep == |Holding(decisions, KEEP)| && s.abstain == |Holding(decisions, ABSTAIN)|
    && s.preflightElapsed == TimeOf(preflight) && s.corpusElapsed == TimeOf(corpus)
    && s.transportElapsed == TimeOf(preflight) + TimeOf(corpus)
  }

  lemma CheckedExactly(check: ReceiptCheck, setup: Setup, identity: Identity, corpus: seq<Receipt>,
                       batches: seq<seq<Candidate>>)
    requires setup.batchSize > 0 && batches == Batches(setup.candidates, setup.batchSize)
    requires |corpus| == |batches| && DecidesInOrder(check)
    requires CorpusDecisions(check, setup, identity, batches, corpus, |corpus|).Ok?
    ensures CorpusChecked(check, setup, identity, corpus)
      == if |batches| != setup.expectedBatches then Refused(WrongBatchCount)
         else if |setup.candidates| != setup.expectedDecisions || !Distinct(Ids(setup.candidates)) then
           Refused(WrongDecisions)
         else CorpusDecisions(check, setup, identity, batches, corpus, |corpus|)
  {
    DecidesManifest(check, setup, identity, corpus);
    var decisions := CorpusDecisions(check, setup, identity, batches, corpus, |corpus|).value.0;
    assert |decisions| == |DecisionIds(decisions)| == |Ids(setup.candidates)|;
  }

  /** What the summary counts of decisions that name the manifest's candidates once each. */
  lemma SummaryCounts(setup: Setup, decisions: seq<Decision>)
    requires DecisionIds(decisions) == Ids(setup.candidates)
    ensures Tally(decisions, KEEP) == |Holding(decisions, KEEP)|
    ensures Tally(decisions, ABSTAIN) == |Holding(decisions, ABSTAIN)|
    ensures Distinct(Ids(setup.candidates)) ==> Tally(decisions, KEEP) == |KeptIds(decisions)|
  {
    TallyCounts(decisions, KEEP);
    TallyCounts(decisions, ABSTAIN);
    KeptIdsAreTallied(decisions);
    if Distinct(Ids(setup.candidates)) {
      forall i, j | 0 <= i < j < |decisions| ensures decisions[i].id != decisions[j].id {
        assert decisions[i].id == DecisionIds(decisions)[i] && decisions[j].id == DecisionIds(decisions)[j];
      }
    }
  }

  /** One receipt for each call, and all validate. */
  ghost predicate Validated(check: ReceiptCheck, setup: Setup, identity: Identity, preflight: seq<Receipt>,
                            corpus: seq<Receipt>, batches: seq<seq<Candidate>>)
  {
    && setup.batchSize > 0 && batches == Batches(setup.candidates, setup.batchSize)
    && |preflight| == |setup.preflight| && |corpus| == |batches| && DecidesInOrder(check)
    && PreflightTime(check, setup, identity, preflight, |preflight|).Ok?
    && CorpusDecisions(check, setup, identity, batches, corpus, |corpus|).Ok?
    && Exposure.AllExposed(setup.candidates, setup.events)
  }

  /** What is built of them, before any outer time. */
  ghost function BuiltOf(check: ReceiptCheck, setup: Setup, identity: Identity, preflight: seq<Receipt>,
                         corpus: seq<Receipt>): Result<Final, RunError>
    requires setup.batchSize > 0
  {
    Built(check, setup, identity, identity, preflight, corpus, ExposureRows(setup.candidates, setup.events), None)
  }

  lemma BuiltWhen(check: ReceiptCheck, setup: Setup, identity: Identity, preflight: seq<Receipt>,
                  corpus: seq<Receipt>, batches: seq<seq<Candidate>>)
    requires Validated(check, setup, identity, preflight, corpus, batches)
    ensures var decisions := CorpusDecisions(check, setup, identity, batches, corpus, |corpus|).value.0;
            var built := BuiltOf(check, setup, identity, preflight, corpus);
            && (built.Ok? <==> Passes(setup, batches, decisions))
            && (built.Refused? ==> built.error == FirstMissed(setup, batches, decisions))
  {
    CheckedExactly(check, setup, identity, corpus, batches);
    DecidesManifest(check, setup, identity, corpus);
    SummaryCounts(setup, CorpusDecisions(check, setup, identity, batches, corpus, |corpus|).value.0);
  }

  lemma BuiltSummary(check: ReceiptCheck, setup: Setup, identity: Identity, preflight: seq<Receipt>,
                     corpus: seq<Receipt>, batches: seq<seq<Candidate>>)
    requires Validated(check, setup, identity, preflight, corpus, batches)
    ensures var decisions := CorpusDecisions(check, setup, identity, batches, corpus, |corpus|).value.0;
            var built := BuiltOf(check, setup, identity, preflight, corpus);
            built.Ok? ==> Summarizes(built.value.body.summary, decisions, preflight, corpus)
  {
    CheckedExactly(check, setup, identity, corpus, batches);
    PreflightMeans(check, setup, identity, preflight, |preflight|);
    CorpusMeans(check, setup, identity, batches, corpus, |corpus|);
    assert preflight[..|preflight|] == preflight && corpus[..|corpus|] == corpus;
    DecidesManifest(check, setup, identity, corpus);
    SummaryCounts(setup, CorpusDecisions(check, setup, identity, batches, corpus, |corpus|).value.0);
  }

  /** Given receipts that validate, one for each call, exactly the registered gates can
      still stop the result from being built, and the first one missed is named. */
  lemma BuiltExactly(check: ReceiptCheck, setup: Setup, identity: Identity, preflight: seq<Receipt>,
                     corpus: seq<Receipt>, batches: seq<seq<Candidate>>)
    requires Validated(check, setup, identity, preflight, corpus, batches)
    ensures var decisions := CorpusDecisions(check, setup, identity, batches, corpus, |corpus|).value.0;
            var built := BuiltOf(check, setup, identity, preflight, corpus);
            && (built.Ok? <==> Passes(setup, batches, decisions))
            && (built.Refused? ==> BuildFault(built.error) && built.error == FirstMissed(setup, batches, decisions))
            && (built.Ok? ==> Summarizes(built.value.body.summary, decisions, preflight, corpus))
  {
    BuiltWhen(check, setup, identity, preflight, corpus, batches);
    BuiltSummary(check, setup, identity, preflight, corpus, batches);
  }

  // ---- Replay ----

  /** `validate_registered_result`, as a function of the retained result. */
  ghost function Replayed(check: ReceiptCheck, setup: Setup, result: Final): Result<Final, RunError>
    requires setup.batchSize > 0
  {
    var b := result.body;
    if b.summary.authoritative.None? then Refused(NoOuterTime)
    else if b.identityStart != setup.registered || b.identityEnd != setup.registered then Refused(WrongIdentity)
    else
      match Built(check, setup, b.identityStart, b.identityEnd, b.preflight, b.corpus, b.exposure,
                  b.summary.authoritative)
      case Refused(e) => Refused(e)
      case Ok(rebuilt) => if result == rebuilt then Ok(result) else Refused(ResultDoesNotReplay)
  }

  method ValidateResult(check: ReceiptCheck, setup: Setup, result: Final) returns (r: Result<Final, RunError>)
    requires setup.batchSize > 0
    ensures r == Replayed(check, setup, result)
  {
    var b := result.body;
    if b.summary.authoritative.None? {
      return Refused(NoOuterTime);
    }
    if b.identityStart != setup.registered || b.identityEnd != setup.registered {
      return Refused(WrongIdentity);
    }
    var rebuilt := BuildResult(check, setup, b.identityStart, b.identityEnd, b.preflight, b.corpus, b.exposure,
                               b.summary.authoritative);
    if rebuilt.Refused? {
      return Refused(rebuilt.error);
    }
    if result != rebuilt.value {
      return Refused(ResultDoesNotReplay);
    }
    r := Ok(result);
  }

  /** A live result before the outer time is inserted: built from its own receipts. */
  ghost predicate Untimed(check: ReceiptCheck, setup: Setup, result: Final)
    requires setup.batchSize > 0
  {
    var b := result.body;
    && b.identityStart == b.identityEnd == setup.registered
    && Built(check, setup, b.identityStart, b.identityEnd, b.preflight, b.corpus, b.exposure, None) == Ok(result)
  }

  /** `_finalize_live_elapsed`, once the time is accepted. */
  function Timed(setup: Setup, result: Final, elapsed: real): Final {
    var body := result.body.(summary := result.body.summary.(authoritative := Some(elapsed)));
    Final(body, setup.resultDigest(body))
  }

  /** Inserting the outer time into a result built without one gives what replays: the same as
      building with it. */
  lemma TimedReplays(check: ReceiptCheck, setup: Setup, result: Final, elapsed: real)
    requires setup.batchSize > 0 && Untimed(check, setup, result)
    requires result.body.summary.transportElapsed <= elapsed <= ELAPSED_LIMIT
    ensures Replayed(check, setup, Timed(setup, result, elapsed)) == Ok(Timed(setup, result, elapsed))
  {
  }

  method ReplayTimed(check: ReceiptCheck, setup: Setup, built: Final, elapsed: real)
    returns (r: Result<Final, RunError>)
    requires setup.batchSize > 0 && Untimed(check, setup, built)
    requires built.body.summary.transportElapsed <= elapsed <= ELAPSED_LIMIT
    ensures r == Ok(Timed(setup, built, elapsed)) && Replayed(check, setup, r.value) == r
  {
    TimedReplays(check, setup, built, elapsed);
    r := ValidateResult(check, setup, Timed(setup, built, elapsed));
  }

  /** Every decision is one verdict or the other. */
  lemma {:induction false} TallyBoth(decisions: seq<Decision>)
    ensures Tally(decisions, KEEP) + Tally(decisions, ABSTAIN) == |decisions|
  {
    if decisions == [] {
    } else {
      TallyBoth(decisions[..|decisions| - 1]);
    }
  }

  /** The rows of the result: for each bundle the candidates that show it, and for each event the
      kept ones that show a bundle of it. */
  ghost predicate ReportsEvidence(setup: Setup, b: Body) {
    && |b.exposure| == |setup.events| == |b.recalled|
    && forall k | 0 <= k < |setup.events| ::
         && |b.exposure[k]| == |setup.events[k].bundles|
         && (forall id :: id in b.recalled[k] <==>
               Exposure.RecalledBy(setup.candidates, b.summary.decisions, setup.events[k], id))
         && forall m | 0 <= m < |b.exposure[k]| :: forall id :: id in b.exposure[k][m] <==>
              exists c :: c in setup.candidates && c.id == id && InView(c, setup.events[k].bundles[m])
  }

  lemma EvidenceReported(setup: Setup, b: Body)
    requires b.exposure == ExposureRows(setup.candidates, setup.events)
    requires b.recalled == RecallRows(setup.candidates, b.summary.decisions, setup.events)
    ensures ReportsEvidence(setup, b)
  {
    forall k | 0 <= k < |setup.events|
      ensures forall id :: id in b.recalled[k] <==>
        Exposure.RecalledBy(setup.candidates, b.summary.decisions, setup.events[k], id)
      ensures forall m | 0 <= m < |b.exposure[k]| :: forall id :: id in b.exposure[k][m] <==>
        exists c :: c in setup.candidates && c.id == id && InView(c, setup.events[k].bundles[m])
    {
      Exposure.RecalledIds(setup.candidates, b.summary.decisions, setup.events[k]);
      forall c, m | 0 <= m < |b.exposure[k]| ensures
        Shows(c, setup.events[k].bundles[m]) <==> InView(c, setup.events[k].bundles[m])
      {
        ShowsMeans(c, setup.events[k].bundles[m]);
      }
    }
  }

  /** What a result that replays proves, wherever it came from: every manifest candidate is
      decided once and in order, every locked event has a kept candidate showing one of its
      bundles, and the counts and times are within their limits. */
  lemma ReplayGuarantees(check: ReceiptCheck, setup: Setup, result: Final)
    requires setup.batchSize > 0 && DecidesInOrder(check) && Replayed(check, setup, result).Ok?
    ensures var s := result.body.summary;
            && DecisionIds(s.decisions) == Ids(setup.candidates) && Distinct(Ids(setup.candidates))
            && Exposure.AllRecalled(setup.candidates, s.decisions, setup.events)
            && Summarizes(s, s.decisions, result.body.preflight, result.body.corpus)
            && s.keep == |KeptIds(s.decisions)| <= 64
            && s.keep + s.abstain == |setup.candidates| == setup.expectedDecisions
            && s.authoritative.Some? && s.transportElapsed <= s.authoritative.value <= 900.0
            && ReportsEvidence(setup, result.body)
  {
    var s := result.body.summary;
    TallyBoth(s.decisions);
    assert |s.decisions| == |DecisionIds(s.decisions)| == |Ids(setup.candidates)|;
    SummaryCounts(setup, s.decisions);
    var b := result.body;
    EvidenceReported(setup, b);
    PreflightMeans(check, setup, setup.registered, b.preflight, |b.preflight|);
    var batches := Batches(setup.candidates, setup.batchSize);
    CorpusMeans(check, setup, setup.registered, batches, b.corpus, |b.corpus|);
    assert b.preflight[..|b.preflight|] == b.preflight && b.corpus[..|b.corpus|] == b.corpus;
  }

  /** What a receipt retains of a call made under `identity`: who answered, at both boundaries, and
      a prompt and completion that fit the context. */
  ghost predicate Attests(o: Oracle, b: ReceiptBase, identity: Identity, system: string, user: string) {
    && b.before == identity && b.after == identity
    && b.model == identity.requested && b.resolvedModel == identity.name && b.modelDigest == identity.digest
    && b.systemDigest == o.textDigest(system) && b.userDigest == o.textDigest(user)
    && b.rawDigest == o.textDigest(b.raw) && b.elapsed >= 0.0
    && o.estimate(system + "\n" + user, b.promptTokens, b.options.numCtx) == Some(b.context.estimated)
    && b.promptTokens >= 1 && 0 <= b.outputTokens <= b.options.numPredict
    && b.context.total == b.promptTokens + b.outputTokens < b.options.numCtx == b.context.numCtx
  }

  /** The receipt of the `k`-th corpus call: numbered behind the preflight, of its own batch, and
      asked with that batch's texts. */
  ghost predicate CorpusReceipt(o: Oracle, setup: Setup, batch: seq<Candidate>, r: Receipt, k: nat) {
    var text := setup.request(batch);
    && r.base.ordinal == |setup.preflight| + k + 1 && r.base.batch == Some(k + 1) && r.base.kind == "corpus-batch"
    && r.base.contract == "registered-classifier"
    && |r.base.ids| == |batch| && (forall i | 0 <= i < |batch| :: r.base.ids[i] == batch[i].id)
    && r.base.idsDigest == o.idsDigest(r.base.ids)
    && r.base.schema == text.schema && r.base.schemaDigest == o.textDigest(text.schema)
    && r.base.options.numCtx == 16384
    && r.base.options.numPredict == (if |batch| <= 42 then 32 + 96 * |batch| else 4096)
    && Attests(o, r.base, setup.registered, text.system, text.user)
    && r.digest == o.receiptDigest(r.base)
  }

  lemma CorpusReceiptPinned(o: Oracle, setup: Setup, batch: seq<Candidate>, r: Receipt, k: nat)
    requires ValidateReceipt(o, r, BatchSpec(setup, batch, k), setup.registered).Ok?
    ensures CorpusReceipt(o, setup, batch, r, k)
  {
    var spec := BatchSpec(setup, batch, k);
    ValidatedIsMade(o, r, spec, setup.registered);
    assert forall i | 0 <= i < |batch| :: Ids(batch)[i] == batch[i].id;
  }

  /** In a result that replays, the k-th corpus receipt is that of the k-th batch. */
  lemma ReplayPinsReceipts(o: Oracle, check: ReceiptCheck, setup: Setup, result: Final, k: nat)
    requires setup.batchSize > 0 && IsValidator(o, check) && Replayed(check, setup, result).Ok?
    ensures |result.body.preflight| == |setup.preflight|
    ensures |result.body.corpus| == |Batches(setup.candidates, setup.batchSize)|
    ensures k < |result.body.corpus| ==>
      CorpusReceipt(o, setup, Batches(setup.candidates, setup.batchSize)[k], result.body.corpus[k], k)
  {
    var b, batches := result.body, Batches(setup.candidates, setup.batchSize);
    CorpusMeans(check, setup, setup.registered, batches, b.corpus, |b.corpus|);
    if k < |b.corpus| {
      var spec := BatchSpec(setup, batches[k], k);
      assert check(b.corpus[k], spec, setup.registered) == ValidateReceipt(o, b.corpus[k], spec, setup.registered);
      CorpusReceiptPinned(o, setup, batches[k], b.corpus[k], k);
    }
  }
}
