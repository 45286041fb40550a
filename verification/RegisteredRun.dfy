/** `run_registered_classifier` as a clocked protocol: resolve, calls of resolve-chat-resolve,
    resolve, build, finalize, and the replay of the result. */
module RegisteredRun {
  import opened Common
  import opened Evidence
  import opened RunClock
  import opened Receipts
  import opened RunResult
  import opened ClassifierCall
  import Classification
  import Exposure

  // ---- The calls of a run ----

  /** A fresh run before its next call, after `calls` of them. */
  ghost predicate Before(w: World, calls: nat)
    reads w
  {
    w.StandsAt(3 + 8 * calls, 1 + 2 * calls, calls)
  }

  /** The run so far: its first resolve and `calls` calls, all in turn and within the deadline. */
  ghost predicate Ran(w: World, registered: Identity, calls: nat, from: real, deadline: real)
    reads w
  {
    w.Kept(from, deadline) && Followed(w.log, calls, registered) && Before(w, calls)
  }

  /** The check is the receipt validator, and the answers are the transport's. */
  ghost predicate Served(w: World, o: Oracle, check: ReceiptCheck, answer: AnswerOf, registered: Identity) {
    IsValidator(o, check) && IsAnswer(w, o, registered, answer)
  }

  /** The run's call of that number, counted from 0, goes through. */
  ghost predicate CallGoes(w: World, answer: AnswerOf, registered: Identity, spec: CallSpec, call: nat,
                           deadline: real)
  {
    Goes(w, answer, registered, spec, 3 + 8 * call, 1 + 2 * call, call, deadline)
  }

  /** `perform_call` as the next call of a run. */
  method NextCall(w: World, o: Oracle, ghost check: ReceiptCheck, ghost answer: AnswerOf, identity: Identity,
                  timeout: real, spec: CallSpec, deadline: real, ghost from: real, ghost calls: nat)
    returns (r: Result<(Receipt, Classification.Decoded), RunError>)
    requires Ran(w, identity, calls, from, deadline)
    requires Served(w, o, check, answer, identity) && timeout > 0.0
    modifies w
    ensures w.Kept(from, deadline)
    ensures r.Ok? <==> CallGoes(w, answer, identity, spec, calls, deadline)
    ensures r.Ok? ==> check(r.value.0, spec, identity) == answer(spec, calls) == Ok(r.value.1)
    ensures r.Ok? ==> TransportTime(w.log) == old(TransportTime(w.log)) + r.value.0.base.elapsed
    ensures r.Ok? ==> Ran(w, identity, calls + 1, from, deadline)
    ensures r.Refused? ==> CallFault(r.error)
  {
    ghost var log := w.log;
    r := PerformCall(w, o, check, answer, identity, identity, timeout, spec, deadline, from);
    if r.Ok? {
      FollowedNext(log, w.log, calls, identity);
    }
  }

  /** Why a run may end in its calls. */
  predicate OperationFault(e: RunError) {
    CallFault(e) || e == SemanticsRefused
  }

  /** The preflight call of that number goes through and agrees. */
  ghost predicate PreflightCallGoes(w: World, answer: AnswerOf, setup: Setup, deadline: real, k: nat)
    requires k < |setup.preflight|
  {
    && CallGoes(w, answer, setup.registered, setup.preflight[k].spec, k, deadline)
    && Shown(setup, answer(setup.preflight[k].spec, k).value.items, setup.preflight[k].sabotage)
  }

  ghost predicate PreflightGoes(w: World, answer: AnswerOf, setup: Setup, deadline: real, n: nat)
    requires n <= |setup.preflight|
  {
    forall k | 0 <= k < n :: PreflightCallGoes(w, answer, setup, deadline, k)
  }

  lemma PreflightGoesOn(w: World, answer: AnswerOf, setup: Setup, deadline: real, n: nat)
    requires n < |setup.preflight| && PreflightGoes(w, answer, setup, deadline, n)
    requires PreflightCallGoes(w, answer, setup, deadline, n)
    ensures PreflightGoes(w, answer, setup, deadline, n + 1)
  {
  }

  /** One preflight call; a disagreement ends the run at once. */
  method PreflightCall(w: World, o: Oracle, ghost check: ReceiptCheck, ghost answer: AnswerOf, setup: Setup,
                       timeout: real, deadline: real, ghost from: real, k: nat)
    returns (r: Result<Receipt, RunError>)
    requires k < |setup.preflight|
    requires Ran(w, setup.registered, k, from, deadline)
    requires Served(w, o, check, answer, setup.registered) && timeout > 0.0
    modifies w
    ensures w.Kept(from, deadline)
    ensures r.Ok? <==> PreflightCallGoes(w, answer, setup, deadline, k)
    ensures r.Ok? ==> PreflightAgrees(check, setup, setup.registered, r.value, k)
    ensures r.Ok? ==> TransportTime(w.log) == old(TransportTime(w.log)) + r.value.base.elapsed
    ensures r.Ok? ==> Ran(w, setup.registered, k + 1, from, deadline)
    ensures r.Refused? ==> OperationFault(r.error)
  {
    var call := NextCall(w, o, check, answer, setup.registered, timeout, setup.preflight[k].spec, deadline, from, k);
    if call.Refused? {
      return Refused(call.error);
    }
    var (receipt, decoded) := call.value;
    SemanticsMean(setup, decoded, setup.preflight[k].sabotage);
    if !SemanticsOk(setup, decoded, setup.preflight[k].sabotage) {
      return Refused(SemanticsRefused);
    }
    r := Ok(receipt);
  }

  /** The preflight calls. */
  method RunPreflight(w: World, o: Oracle, ghost check: ReceiptCheck, ghost answer: AnswerOf, setup: Setup,
                      timeout: real, deadline: real, ghost from: real)
    returns (r: Result<seq<Receipt>, RunError>)
    requires Ran(w, setup.registered, 0, from, deadline)
    requires Served(w, o, check, answer, setup.registered) && timeout > 0.0
    modifies w
    ensures w.Kept(from, deadline)
    ensures r.Ok? <==> PreflightGoes(w, answer, setup, deadline, |setup.preflight|)
    ensures r.Ok? ==> |r.value| == |setup.preflight| && Ran(w, setup.registered, |r.value|, from, deadline)
    ensures r.Ok? ==> PreflightTime(check, setup, setup.registered, r.value, |r.value|).Ok?
    ensures r.Ok? ==>
      TransportTime(w.log)
        == old(TransportTime(w.log)) + PreflightTime(check, setup, setup.registered, r.value, |r.value|).value
    ensures r.Refused? ==> OperationFault(r.error)
  {
    var receipts: seq<Receipt> := [];
    ghost var elapsed := 0.0;
    for k := 0 to |setup.preflight|
      invariant |receipts| == k && Ran(w, setup.registered, k, from, deadline)
      invariant PreflightGoes(w, answer, setup, deadline, k)
      invariant PreflightTime(check, setup, setup.registered, receipts, k) == Ok(elapsed)
      invariant TransportTime(w.log) == old(TransportTime(w.log)) + elapsed
    {
      var receipt := PreflightCall(w, o, check, answer, setup, timeout, deadline, from, k);
      if receipt.Refused? {
        return Refused(receipt.error);
      }
      PreflightGoesOn(w, answer, setup, deadline, k);
      PreflightNext(check, setup, setup.registered, receipts, receipt.value, elapsed);
      receipts := receipts + [receipt.value];
      elapsed := elapsed + receipt.value.base.elapsed;
    }
    r := Ok(receipts);
  }

  /** The corpus call of that number goes through. */
  ghost predicate CorpusCallGoes(w: World, answer: AnswerOf, setup: Setup, batches: seq<seq<Candidate>>,
                                 deadline: real, k: nat)
    requires k < |batches|
  {
    CallGoes(w, answer, setup.registered, BatchSpec(setup, batches[k], k), |setup.preflight| + k, deadline)
  }

  ghost predicate CorpusGoes(w: World, answer: AnswerOf, setup: Setup, batches: seq<seq<Candidate>>, deadline: real,
                             n: nat)
    requires n <= |batches|
  {
    forall k | 0 <= k < n :: CorpusCallGoes(w, answer, setup, batches, deadline, k)
  }

  ghost function Items(answer: AnswerOf, setup: Setup, batches: seq<seq<Candidate>>, k: nat): seq<Decision>
    requires k < |batches|
  {
    match answer(BatchSpec(setup, batches[k], k), |setup.preflight| + k)
    case Ok(decoded) => decoded.items
    case Refused(_) => []
  }

  /** What the transport decides in the first `n` corpus calls. */
  ghost function Answered(answer: AnswerOf, setup: Setup, batches: seq<seq<Candidate>>, n: nat): seq<Decision>
    requires n <= |batches|
  {
    if n == 0 then [] else Answered(answer, setup, batches, n - 1) + Items(answer, setup, batches, n - 1)
  }

  /** Those decisions are what each call's own answer decides, put together in batch order. */
  lemma {:induction false} AnsweredMeans(answer: AnswerOf, setup: Setup, batches: seq<seq<Candidate>>, n: nat)
    requires n <= |batches|
    requires forall k | 0 <= k < n :: answer(BatchSpec(setup, batches[k], k), |setup.preflight| + k).Ok?
    ensures Answered(answer, setup, batches, n)
         == Concat(seq(n, k requires 0 <= k < n =>
                     answer(BatchSpec(setup, batches[k], k), |setup.preflight| + k).value.items))
  {
    if n > 0 {
      AnsweredMeans(answer, setup, batches, n - 1);
      var before := seq(n - 1, k requires 0 <= k < n - 1 =>
                          answer(BatchSpec(setup, batches[k], k), |setup.preflight| + k).value.items);
      var last := answer(BatchSpec(setup, batches[n - 1], n - 1), |setup.preflight| + (n - 1)).value.items;
      assert seq(n, k requires 0 <= k < n =>
                   answer(BatchSpec(setup, batches[k], k), |setup.preflight| + k).value.items) == before + [last];
      ConcatAppend(before, last);
    }
  }

  /** The receipts of the first corpus calls validate, with the transport's decisions. */
  ghost predicate Recorded(check: ReceiptCheck, answer: AnswerOf, setup: Setup, batches: seq<seq<Candidate>>,
                           receipts: seq<Receipt>, elapsed: real)
  {
    && |receipts| <= |batches|
    && CorpusDecisions(check, setup, setup.registered, batches, receipts, |receipts|)
         == Ok((Answered(answer, setup, batches, |receipts|), elapsed))
  }

  /** The receipt validates as what the transport answered. */
  ghost predicate Matches(check: ReceiptCheck, answer: AnswerOf, setup: Setup, batches: seq<seq<Candidate>>,
                          receipt: Receipt, k: nat)
    requires k < |batches|
  {
    var spec := BatchSpec(setup, batches[k], k);
    var decoded := check(receipt, spec, setup.registered);
    decoded.Ok? && decoded == answer(spec, |setup.preflight| + k)
  }

  lemma RecordedNext(check: ReceiptCheck, answer: AnswerOf, setup: Setup, batches: seq<seq<Candidate>>,
                     receipts: seq<Receipt>, receipt: Receipt, elapsed: real)
    requires Recorded(check, answer, setup, batches, receipts, elapsed) && |receipts| < |batches|
    requires Matches(check, answer, setup, batches, receipt, |receipts|)
    ensures Recorded(check, answer, setup, batches, receipts + [receipt], elapsed + receipt.base.elapsed)
  {
    var decisions := Answered(answer, setup, batches, |receipts|);
    CorpusNext(check, setup, setup.registered, batches, receipts, receipt, decisions, elapsed);
  }

  /** The first corpus calls went through, and their receipts record it. */
  ghost predicate Collected(w: World, check: ReceiptCheck, answer: AnswerOf, setup: Setup,
                            batches: seq<seq<Candidate>>, deadline: real, receipts: seq<Receipt>, elapsed: real)
  {
    && Recorded(check, answer, setup, batches, receipts, elapsed)
    && CorpusGoes(w, answer, setup, batches, deadline, |receipts|)
  }

  lemma CollectedNext(w: World, check: ReceiptCheck, answer: AnswerOf, setup: Setup, batches: seq<seq<Candidate>>,
                      deadline: real, receipts: seq<Receipt>, receipt: Receipt, elapsed: real)
    requires Collected(w, check, answer, setup, batches, deadline, receipts, elapsed) && |receipts| < |batches|
    requires CorpusCallGoes(w, answer, setup, batches, deadline, |receipts|)
    requires Matches(check, answer, setup, batches, receipt, |receipts|)
    ensures
      Collected(w, check, answer, setup, batches, deadline, receipts + [receipt], elapsed + receipt.base.elapsed)
  {
    RecordedNext(check, answer, setup, batches, receipts, receipt, elapsed);
  }

  /** One corpus call. */
  method CorpusCall(w: World, o: Oracle, ghost check: ReceiptCheck, ghost answer: AnswerOf, setup: Setup,
                    timeout: real, deadline: real, batches: seq<seq<Candidate>>, ghost from: real, k: nat)
    returns (r: Result<Receipt, RunError>)
    requires k < |batches| && Ran(w, setup.registered, |setup.preflight| + k, from, deadline)
    requires Served(w, o, check, answer, setup.registered) && timeout > 0.0
    modifies w
    ensures w.Kept(from, deadline)
    ensures r.Ok? <==> CorpusCallGoes(w, answer, setup, batches, deadline, k)
    ensures r.Ok? ==> Matches(check, answer, setup, batches, r.value, k)
    ensures r.Ok? ==> TransportTime(w.log) == old(TransportTime(w.log)) + r.value.base.elapsed
    ensures r.Ok? ==> Ran(w, setup.registered, |setup.preflight| + k + 1, from, deadline)
    ensures r.Refused? ==> CallFault(r.error)
  {
    var call := NextCall(w, o, check, answer, setup.registered, timeout, BatchSpec(setup, batches[k], k), deadline,
                         from, |setup.preflight| + k);
    r := match call case Ok((receipt, _)) => Ok(receipt) case Refused(e) => Refused(e);
  }

  /** The next corpus call: its receipt joins those before it. */
  method ExtendCorpus(w: World, o: Oracle, ghost check: ReceiptCheck, ghost answer: AnswerOf, setup: Setup,
                      timeout: real, deadline: real, batches: seq<seq<Candidate>>, ghost from: real,
                      receipts: seq<Receipt>, ghost elapsed: real)
    returns (r: Result<seq<Receipt>, RunError>, ghost more: real)
    requires |receipts| < |batches| && Ran(w, setup.registered, |setup.preflight| + |receipts|, from, deadline)
    requires Served(w, o, check, answer, setup.registered) && timeout > 0.0
    requires Collected(w, check, answer, setup, batches, deadline, receipts, elapsed)
    modifies w
    ensures w.Kept(from, deadline)
    ensures r.Ok? ==> |r.value| == |receipts| + 1
    ensures r.Ok? ==>
      var collected := Collected(w, check, answer, setup, batches, deadline, r.value, more); collected
    ensures r.Ok? ==> TransportTime(w.log) - more == old(TransportTime(w.log)) - elapsed
    ensures r.Ok? ==> Ran(w, setup.registered, |setup.preflight| + |r.value|, from, deadline)
    ensures r.Refused? ==> !CorpusGoes(w, answer, setup, batches, deadline, |batches|) && CallFault(r.error)
  {
    more := elapsed;
    var receipt := CorpusCall(w, o, check, answer, setup, timeout, deadline, batches, from, |receipts|);
    if receipt.Refused? {
      return Refused(receipt.error), more;
    }
    CollectedNext(w, check, answer, setup, batches, deadline, receipts, receipt.value, elapsed);
    more := elapsed + receipt.value.base.elapsed;
    r := Ok(receipts + [receipt.value]);
  }

  /** The corpus calls, one a batch. */
  method RunCorpus(w: World, o: Oracle, ghost check: ReceiptCheck, ghost answer: AnswerOf, setup: Setup,
                   timeout: real, deadline: real, batches: seq<seq<Candidate>>, ghost from: real)
    returns (r: Result<seq<Receipt>, RunError>)
    requires Ran(w, setup.registered, |setup.preflight|, from, deadline)
    requires Served(w, o, check, answer, setup.registered) && timeout > 0.0
    modifies w
    ensures w.Kept(from, deadline)
    ensures r.Ok? <==> CorpusGoes(w, answer, setup, batches, deadline, |batches|)
    ensures r.Ok? ==> |r.value| == |batches|
    ensures r.Ok? ==> Ran(w, setup.registered, |setup.preflight| + |batches|, from, deadline)
    ensures r.Ok? ==>
      Recorded(check, answer, setup, batches, r.value, TransportTime(w.log) - old(TransportTime(w.log)))
    ensures r.Refused? ==> CallFault(r.error)
  {
    var receipts: seq<Receipt> := [];
    ghost var elapsed, before := 0.0, TransportTime(w.log);
    for k := 0 to |batches|
      invariant |receipts| == k && Ran(w, setup.registered, |setup.preflight| + k, from, deadline)
      invariant Collected(w, check, answer, setup, batches, deadline, receipts, elapsed)
      invariant TransportTime(w.log) - elapsed == before
    {
      var extended;
      extended, elapsed :=
        ExtendCorpus(w, o, check, answer, setup, timeout, deadline, batches, from, receipts, elapsed);
      if extended.Refused? {
        return Refused(extended.error);
      }
      receipts := extended.value;
    }
    r := Ok(receipts);
  }

  /** `_finalize_live_elapsed`. */
  method Finalize(w: World, setup: Setup, result: Final, started: real) returns (r: Result<Final, RunError>)
    modifies w`readings
    ensures w.readings == old(w.readings) + 1
    ensures var elapsed := w.Last() - started;
            r == if elapsed < result.body.summary.transportElapsed then Refused(ElapsedTooShort)
                 else if elapsed > ELAPSED_LIMIT then Refused(ElapsedTooLong)
                 else Ok(Timed(setup, result, elapsed))
  {
    var now := w.Now();
    var elapsed := now - started;
    if elapsed < result.body.summary.transportElapsed {
      return Refused(ElapsedTooShort);
    }
    if elapsed > ELAPSED_LIMIT {
      return Refused(ElapsedTooLong);
    }
    var finalized := result.body.(summary := result.body.summary.(authoritative := Some(elapsed)));
    r := Ok(Final(finalized, setup.resultDigest(finalized)));
  }

  // ---- Finalize and replay ----

  /** Why a run may end after its last call. */
  predicate ResultFault(e: RunError) {
    BuildFault(e) || e.ElapsedTooLong?
  }

  /** Receipts for every call, all validating, with the decisions made and the transport's time. */
  ghost predicate Received(check: ReceiptCheck, setup: Setup, receipts: (seq<Receipt>, seq<Receipt>),
                           decisions: seq<Decision>, transport: real)
    requires setup.batchSize > 0
  {
    var batches := Batches(setup.candidates, setup.batchSize);
    var (preflight, corpus) := receipts;
    && |preflight| == |setup.preflight| && |corpus| == |batches|
    && var before := PreflightTime(check, setup, setup.registered, preflight, |preflight|);
       var after := CorpusDecisions(check, setup, setup.registered, batches, corpus, |corpus|);
       before.Ok? && after.Ok? && after.value.0 == decisions && transport == before.value + after.value.1
  }

  /** The result before the outer time is known. */
  method BuildUntimed(check: ReceiptCheck, setup: Setup, preflight: seq<Receipt>, corpus: seq<Receipt>,
                      exposure: seq<seq<set<string>>>, ghost decisions: seq<Decision>, ghost transport: real)
    returns (r: Result<Final, RunError>)
    requires setup.batchSize > 0 && DecidesInOrder(check)
    requires Exposure.AllExposed(setup.candidates, setup.events)
    requires exposure == ExposureRows(setup.candidates, setup.events)
    requires Received(check, setup, (preflight, corpus), decisions, transport)
    ensures r.Ok? <==> Passes(setup, Batches(setup.candidates, setup.batchSize), decisions)
    ensures r.Ok? ==> Untimed(check, setup, r.value) && r.value.body.summary.transportElapsed == transport
    ensures r.Ok? ==> r.value.body.preflight == preflight && r.value.body.corpus == corpus
    ensures r.Ok? ==> Summarizes(r.value.body.summary, decisions, preflight, corpus)
    ensures r.Refused? ==> ResultFault(r.error)
  {
    ghost var batches := Batches(setup.candidates, setup.batchSize);
    BuiltExactly(check, setup, setup.registered, preflight, corpus, batches);
    r := BuildResult(check, setup, setup.registered, setup.registered, preflight, corpus, exposure, None);
  }

  /** A result of that many calls: it counts the decisions and sums its receipts' time, which is the
      transport's; the outer time is the larger and within the limit. */
  ghost predicate Concluded(w: World, result: Final, calls: nat, decisions: seq<Decision>, started: real)
    requires w.readings > 0
    reads w
  {
    var s := result.body.summary;
    && |result.body.preflight| + |result.body.corpus| == calls
    && Summarizes(s, decisions, result.body.preflight, result.body.corpus)
    && s.transportElapsed == TransportTime(w.log)
    && s.authoritative == Some(w.Last() - started)
    && TransportTime(w.log) <= w.Last() - started <= 900.0
  }

  /** The outer time is inserted and the result replayed: neither can find it inconsistent. */
  method TimeAndReplay(w: World, check: ReceiptCheck, setup: Setup, built: Final, started: real)
    returns (r: Result<Final, RunError>)
    requires w.Kept(started, started + ELAPSED_LIMIT)
    requires setup.batchSize > 0 && Untimed(check, setup, built)
    requires built.body.summary.transportElapsed == TransportTime(w.log)
    modifies w`readings
    ensures w.Kept(started, started + ELAPSED_LIMIT)
    ensures r.Ok? <==> w.clock(old(w.readings)) - started <= ELAPSED_LIMIT
    ensures r.Ok? ==> Replayed(check, setup, r.value) == r
    ensures r.Ok? ==> r.value == Timed(setup, built, w.Last() - started)
    ensures r.Ok? ==> TransportTime(w.log) <= w.Last() - started <= ELAPSED_LIMIT
    ensures r.Refused? ==> r.error == ElapsedTooLong
  {
    ghost var before := w.readings;
    r := Finalize(w, setup, built, started);
    ReadingKeeps(w, before, started, started + ELAPSED_LIMIT);
    TransportFits(w.log, started, w.Last());
    if r.Ok? {
      r := ReplayTimed(check, setup, built, r.value.body.summary.authoritative.value);
    }
  }

  /** The registered result of the receipts of a run: built, timed and replayed. Only the gates and
      the limit can refuse it. */
  method Conclude(w: World, check: ReceiptCheck, setup: Setup, preflight: seq<Receipt>, corpus: seq<Receipt>,
                  started: real, ghost decisions: seq<Decision>)
    returns (r: Result<Final, RunError>)
    requires w.Kept(started, started + ELAPSED_LIMIT)
    requires setup.batchSize > 0 && DecidesInOrder(check)
    requires Exposure.AllExposed(setup.candidates, setup.events)
    requires Received(check, setup, (preflight, corpus), decisions, TransportTime(w.log))
    modifies w`readings
    ensures w.Kept(started, started + ELAPSED_LIMIT)
    ensures r.Ok? <==>
      && Passes(setup, Batches(setup.candidates, setup.batchSize), decisions)
      && w.clock(old(w.readings)) - started <= ELAPSED_LIMIT
    ensures r.Ok? ==> Replayed(check, setup, r.value) == r
    ensures r.Ok? ==> Concluded(w, r.value, |preflight| + |corpus|, decisions, started)
    ensures r.Refused? ==> ResultFault(r.error)
  {
    var exposure := ExposureRows(setup.candidates, setup.events);
    var built := BuildUntimed(check, setup, preflight, corpus, exposure, decisions, TransportTime(w.log));
    if built.Refused? {
      return Refused(built.error);
    }
    r := TimeAndReplay(w, check, setup, built.value, started);
  }

  // ---- The whole run ----

  /** Every preflight and every corpus call goes through. */
  ghost predicate BothGo(w: World, answer: AnswerOf, setup: Setup, batches: seq<seq<Candidate>>, deadline: real) {
    && PreflightGoes(w, answer, setup, deadline, |setup.preflight|)
    && CorpusGoes(w, answer, setup, batches, deadline, |batches|)
  }

  /** The last resolve of a run of `calls` calls goes through. */
  ghost predicate EndGoes(w: World, registered: Identity, calls: nat, deadline: real) {
    Resolves(w, registered, 1 + 2 * calls, 3 + 8 * calls, deadline)
  }

  /** All calls and the last resolve go through. */
  ghost predicate RestGoes(w: World, answer: AnswerOf, setup: Setup, batches: seq<seq<Candidate>>, deadline: real) {
    && BothGo(w, answer, setup, batches, deadline)
    && EndGoes(w, setup.registered, |setup.preflight| + |batches|, deadline)
  }

  /** Every operation of the run goes through: the first and last resolve, and all calls. */
  ghost predicate CallsGo(w: World, answer: AnswerOf, setup: Setup, batches: seq<seq<Candidate>>, timeout: real,
                          deadline: real)
  {
    && timeout > 0.0
    && Resolves(w, setup.registered, 0, 1, deadline)
    && RestGoes(w, answer, setup, batches, deadline)
  }

  /** The whole run goes through: all its operations, the gates on what they decided, and the time
      at its last reading. */
  ghost predicate RunGoes(w: World, answer: AnswerOf, setup: Setup, timeout: real, started: real)
    requires setup.batchSize > 0
  {
    var batches := Batches(setup.candidates, setup.batchSize);
    && CallsGo(w, answer, setup, batches, timeout, started + ELAPSED_LIMIT)
    && Passes(setup, batches, Answered(answer, setup, batches, |batches|))
    && w.clock(5 + 8 * (|setup.preflight| + |batches|)) - started <= ELAPSED_LIMIT
  }

  /** The operations of a run that finished: a resolve, `calls` calls, and a last resolve. */
  ghost predicate FullRun(log: seq<Op>, calls: nat, identity: Identity) {
    |log| == 3 * calls + 2 && InTurn(log, identity)
  }

  /** A finished run: all its calls in turn, and their decisions in its result. */
  ghost predicate Completed(w: World, answer: AnswerOf, setup: Setup, result: Final, started: real)
    requires w.readings > 0 && setup.batchSize > 0
    reads w
  {
    var batches := Batches(setup.candidates, setup.batchSize);
    var calls := |setup.preflight| + |batches|;
    && FullRun(w.log, calls, setup.registered)
    && Concluded(w, result, calls, Answered(answer, setup, batches, |batches|), started)
  }

  /** All operations of a run are behind it, and their receipts validate. */
  ghost predicate Finished(w: World, check: ReceiptCheck, answer: AnswerOf, setup: Setup,
                           batches: seq<seq<Candidate>>, receipts: (seq<Receipt>, seq<Receipt>))
    requires setup.batchSize > 0
    reads w
  {
    var calls := |setup.preflight| + |batches|;
    && Received(check, setup, receipts, Answered(answer, setup, batches, |batches|), TransportTime(w.log))
    && FullRun(w.log, calls, setup.registered) && w.readings == 5 + 8 * calls
  }

  /** The calls of the run: preflight, then corpus. */
  method RunBoth(w: World, o: Oracle, ghost check: ReceiptCheck, ghost answer: AnswerOf, setup: Setup, timeout: real,
                 deadline: real, batches: seq<seq<Candidate>>, ghost from: real)
    returns (r: Result<(seq<Receipt>, seq<Receipt>), RunError>)
    requires Ran(w, setup.registered, 0, from, deadline)
    requires setup.batchSize > 0 && batches == Batches(setup.candidates, setup.batchSize)
    requires Served(w, o, check, answer, setup.registered) && timeout > 0.0
    requires TransportTime(w.log) == 0.0
    modifies w
    ensures w.Kept(from, deadline)
    ensures r.Ok? <==> BothGo(w, answer, setup, batches, deadline)
    ensures r.Ok? ==>
      Received(check, setup, r.value, Answered(answer, setup, batches, |batches|), TransportTime(w.log))
    ensures r.Ok? ==> Ran(w, setup.registered, |setup.preflight| + |batches|, from, deadline)
    ensures r.Refused? ==> OperationFault(r.error)
  {
    var preflight := RunPreflight(w, o, check, answer, setup, timeout, deadline, from);
    if preflight.Refused? {
      return Refused(preflight.error);
    }
    var corpus := RunCorpus(w, o, check, answer, setup, timeout, deadline, batches, from);
    r := match corpus case Ok(receipts) => Ok((preflight.value, receipts)) case Refused(e) => Refused(e);
  }

  lemma FullRunEnds(before: seq<Op>, log: seq<Op>, calls: nat, identity: Identity)
    requires Followed(before, calls, identity) && Appended(before, log) && Saw(log[|log| - 1], identity)
    ensures FullRun(log, calls, identity)
  {
    forall i: nat | i < |log| ensures InPlace(log[i], i, identity) {
      if i < |before| {
        assert log[i] == before[i] && InPlace(before[i], i, identity);
      }
    }
  }

  /** The last resolve of a run. */
  method ResolveLast(w: World, registered: Identity, timeout: real, deadline: real, ghost from: real, ghost calls: nat)
    returns (r: Result<Identity, RunError>)
    requires Ran(w, registered, calls, from, deadline) && timeout > 0.0
    modifies w
    ensures w.Kept(from, deadline) && TransportTime(w.log) == old(TransportTime(w.log))
    ensures r.Ok? <==> EndGoes(w, registered, calls, deadline)
    ensures r.Ok? ==> FullRun(w.log, calls, registered) && w.readings == 5 + 8 * calls
    ensures r.Refused? ==> CallFault(r.error)
  {
    ghost var log := w.log;
    r := ResolveIdentity(w, registered, timeout, deadline, from);
    if r.Ok? {
      FullRunEnds(log, w.log, calls, registered);
    }
  }

  /** The calls of the run and its last resolve. */
  method RunRest(w: World, o: Oracle, ghost check: ReceiptCheck, ghost answer: AnswerOf, setup: Setup, timeout: real,
                 deadline: real, batches: seq<seq<Candidate>>, ghost from: real)
    returns (r: Result<(seq<Receipt>, seq<Receipt>), RunError>)
    requires Ran(w, setup.registered, 0, from, deadline)
    requires setup.batchSize > 0 && batches == Batches(setup.candidates, setup.batchSize)
    requires Served(w, o, check, answer, setup.registered) && timeout > 0.0
    requires TransportTime(w.log) == 0.0
    modifies w
    ensures w.Kept(from, deadline)
    ensures var goes := RestGoes(w, answer, setup, batches, deadline); r.Ok? <==> goes
    ensures r.Ok? ==> var finished := Finished(w, check, answer, setup, batches, r.value); finished
    ensures r.Refused? ==> var fault := OperationFault(r.error); fault
  {
    ghost var both := BothGo(w, answer, setup, batches, deadline);
    ghost var end := EndGoes(w, setup.registered, |setup.preflight| + |batches|, deadline);
    assert RestGoes(w, answer, setup, batches, deadline) <==> both && end;
    var receipts := RunBoth(w, o, check, answer, setup, timeout, deadline, batches, from);
    if receipts.Refused? {
      return Refused(receipts.error);
    }
    var last := ResolveLast(w, setup.registered, timeout, deadline, from, |setup.preflight| + |batches|);
    if last.Refused? {
      return Refused(last.error);
    }
    r := receipts;
  }

  /** Every transport operation of the run, in order. */
  method RunCalls(w: World, o: Oracle, ghost check: ReceiptCheck, ghost answer: AnswerOf, setup: Setup, timeout: real,
                  deadline: real, batches: seq<seq<Candidate>>, ghost from: real)
    returns (r: Result<(seq<Receipt>, seq<Receipt>), RunError>)
    requires w.Kept(from, deadline) && w.log == [] && w.StandsAt(1, 0, 0)
    requires setup.batchSize > 0 && batches == Batches(setup.candidates, setup.batchSize)
    requires Served(w, o, check, answer, setup.registered)
    modifies w
    ensures w.Kept(from, deadline)
    ensures r.Ok? <==> CallsGo(w, answer, setup, batches, timeout, deadline)
    ensures r.Ok? ==> var finished := Finished(w, check, answer, setup, batches, r.value); finished
    ensures r.Refused? ==> OperationFault(r.error)
  {
    var start := ResolveIdentity(w, setup.registered, timeout, deadline, from);
    if start.Refused? {
      return Refused(start.error);
    }
    r := RunRest(w, o, check, answer, setup, timeout, deadline, batches, from);
  }

  /** The run once the exposure of the locked events is established. */
  method RunLocked(w: World, o: Oracle, check: ReceiptCheck, ghost answer: AnswerOf, setup: Setup, timeout: real,
                   started: real)
    returns (r: Result<Final, RunError>)
    requires w.Kept(started, started + ELAPSED_LIMIT) && w.log == [] && w.StandsAt(1, 0, 0) && setup.batchSize > 0
    requires Served(w, o, check, answer, setup.registered) && DecidesInOrder(check)
    requires Exposure.AllExposed(setup.candidates, setup.events)
    modifies w
    ensures w.Kept(started, started + ELAPSED_LIMIT)
    ensures var goes := RunGoes(w, answer, setup, timeout, started); r.Ok? <==> goes
    ensures r.Ok? ==> Replayed(check, setup, r.value) == r
    ensures r.Ok? ==> Completed(w, answer, setup, r.value, started)
    ensures r.Refused? ==> OperationFault(r.error) || ResultFault(r.error)
  {
    var batches := Batches(setup.candidates, setup.batchSize);
    ghost var decisions := Answered(answer, setup, batches, |batches|);
    ghost var passes := Passes(setup, batches, decisions);
    ghost var ended := w.clock(5 + 8 * (|setup.preflight| + |batches|));
    assert RunGoes(w, answer, setup, timeout, started)
      <==> CallsGo(w, answer, setup, batches, timeout, started + ELAPSED_LIMIT) && passes
           && ended - started <= ELAPSED_LIMIT;
    var receipts := RunCalls(w, o, check, answer, setup, timeout, started + ELAPSED_LIMIT, batches, started);
    if receipts.Refused? {
      return Refused(receipts.error);
    }
    assert w.clock(w.readings) == ended;
    r := Conclude(w, check, setup, receipts.value.0, receipts.value.1, started, decisions);
    assert r.Ok? <==> passes && ended - started <= ELAPSED_LIMIT;
  }

  /** `run_registered_classifier` in a fresh world, whatever the clock and the transport do. Every
      operation starts before the deadline, with no more time than is left, and after the one
      before it has ended. The run returns exactly when the review is exposed, every operation
      goes through, the gates hold and the outer time is within the limit; what it returns are the
      transport's own decisions, and it replays. */
  method Run(w: World, o: Oracle, check: ReceiptCheck, ghost answer: AnswerOf, setup: Setup, timeout: real)
    returns (r: Result<Final, RunError>, started: real)
    requires Served(w, o, check, answer, setup.registered) && setup.batchSize > 0
    requires Nondecreasing(w.clock) && w.log == [] && w.StandsAt(0, 0, 0)
    modifies w
    ensures started == w.clock(0) && w.Kept(started, started + 900.0)
    ensures var goes := RunGoes(w, answer, setup, timeout, started);
            r.Ok? <==> Exposure.AllExposed(setup.candidates, setup.events) && goes
    ensures r.Ok? ==> Replayed(check, setup, r.value) == r
    ensures r.Ok? ==> Completed(w, answer, setup, r.value, started)
    ensures !Exposure.AllExposed(setup.candidates, setup.events) ==>
      r == Refused(NotExposed) && w.log == [] && w.StandsAt(1, 0, 0)
    ensures r.Refused? && Exposure.AllExposed(setup.candidates, setup.events) ==>
      OperationFault(r.error) || ResultFault(r.error)
  {
    started := w.Now();
    var exposed := Exposure.PacketExposure(setup.candidates, setup.events);
    if !exposed {
      return Refused(NotExposed), started;
    }
    ValidatorDecides(o, check);
    r := RunLocked(w, o, check, answer, setup, timeout, started);
  }
}
