/** One classifier call under the deadline of its run: a resolve, a chat and a resolve. */
module ClassifierCall {
  import opened Common
  import opened RunClock
  import opened Receipts
  import opened RunResult
  import Classification
  import ResponseReading

  /** What can go wrong in a call. That its own receipt fails to validate is not among it. */
  predicate CallFault(e: RunError) {
    || e.BadTimeout? || e.DeadlineExhausted? || e.TransportFailed? || e.WrongIdentity? || e.BadCompletion?
    || e.WrongModel? || e.BadMessage? || e.BadResponse? || e.BadContext?
  }

  // ---- One operation ----

  /** `_active_timeout`. */
  method ActiveTimeout(w: World, configured: real, deadline: real, ceiling: Option<real>)
    returns (r: Result<real, RunError>, ghost reading: real)
    requires ceiling.Some? ==> ceiling.value > 0.0
    modifies w`readings
    ensures configured <= 0.0 ==> r == Refused(BadTimeout) && w.readings == old(w.readings)
    ensures configured > 0.0 ==> w.readings == old(w.readings) + 1 && reading == w.Last()
    ensures configured > 0.0 ==> (r == Refused(DeadlineExhausted) <==> reading >= deadline)
    ensures r.Ok? <==> configured > 0.0 && w.clock(old(w.readings)) < deadline
    ensures r.Ok? ==> 0.0 < r.value <= deadline - reading && r.value <= configured
    ensures r.Ok? && ceiling.Some? ==> r.value <= ceiling.value
    ensures r.Ok? ==> r.value == configured || r.value == deadline - reading || ceiling == Some(r.value)
  {
    reading := 0.0;
    if configured <= 0.0 {
      return Refused(BadTimeout), reading;
    }
    var now := w.Now();
    reading := now;
    var remaining := deadline - now;
    if remaining <= 0.0 {
      return Refused(DeadlineExhausted), reading;
    }
    var bounded := if configured < remaining then configured else remaining;
    if ceiling.Some? && ceiling.value < bounded {
      bounded := ceiling.value;
    }
    if bounded <= 0.0 {
      return Refused(DeadlineExhausted), reading;
    }
    r := Ok(bounded);
  }

  /** `_require_active_deadline`. */
  method RequireDeadline(w: World, deadline: real) returns (ok: bool)
    modifies w`readings
    ensures w.readings == old(w.readings) + 1 && (ok <==> w.Last() < deadline)
  {
    var now := w.Now();
    ok := deadline - now > 0.0;
  }

  /** Reading the clock again keeps what holds of the run. */
  lemma ReadingKeeps(w: World, before: nat, from: real, deadline: real)
    requires Nondecreasing(w.clock) && 0 < before <= w.readings
    requires Sequential(w.log, from, w.clock(before - 1)) && forall op | op in w.log :: InBudget(op, deadline)
    ensures w.Kept(from, deadline)
  {
    assert Earlier(before - 1, w.readings - 1);
  }

  /** A deadline not reached yet was not reached before. */
  lemma InTimeBefore(w: World, reading: nat, deadline: real)
    requires Nondecreasing(w.clock) && w.clock(reading) < deadline
    ensures forall i: nat | i <= reading :: w.clock(i) < deadline
  {
    forall i: nat | i <= reading ensures w.clock(i) < deadline {
      assert Earlier(i, reading);
    }
  }

  /** The resolve that takes the given readings sees the registered identity, in time. */
  ghost predicate Resolves(w: World, registered: Identity, resolve: nat, reading: nat, deadline: real) {
    w.identities(resolve) == Some(registered) && w.clock(reading) < deadline && w.clock(reading + 1) < deadline
  }

  /** `_resolve_model_identity`: the registered identity, before the deadline. A resolve that fails
      ends at the next reading as well. */
  method ResolveIdentity(w: World, registered: Identity, timeout: real, deadline: real, ghost from: real)
    returns (r: Result<Identity, RunError>)
    requires w.Kept(from, deadline)
    modifies w
    ensures w.Kept(from, deadline)
    ensures TransportTime(w.log) == old(TransportTime(w.log))
    ensures r.Ok? <==> timeout > 0.0 && Resolves(w, registered, old(w.resolves), old(w.readings), deadline)
    ensures r.Ok? ==> w.StandsAt(old(w.readings) + 2, old(w.resolves) + 1, old(w.chats))
    ensures r.Ok? ==> r.value == registered && Appended(old(w.log), w.log) && Saw(w.log[|w.log| - 1], registered)
    ensures r.Refused? ==> CallFault(r.error) && w.resolves <= old(w.resolves) + 1 && w.chats == old(w.chats)
  {
    ghost var before := w.readings;
    var active, reading := ActiveTimeout(w, timeout, deadline, Some(RESOLVE_CEILING));
    ReadingKeeps(w, before, from, deadline);
    if active.Refused? {
      return Refused(active.error);
    }
    assert Earlier(before, w.readings);
    ghost var resolve := Resolve(reading, active.value, w.clock(w.readings), w.identities(w.resolves));
    SequentialNext(w.log, from, w.Last(), resolve, w.clock(w.readings));
    var observed := w.ResolveModel(active.value, reading);
    before := w.readings + 1;
    var intime := RequireDeadline(w, deadline);
    ReadingKeeps(w, before, from, deadline);
    if observed.None? {
      return Refused(TransportFailed);
    }
    if observed.value != registered {
      return Refused(WrongIdentity);
    }
    if !intime {
      return Refused(DeadlineExhausted);
    }
    r := Ok(observed.value);
  }

  // ---- One call ----

  /** `_resolve_transport_identity`: the same identity as before. */
  method ResolveAgain(w: World, registered: Identity, identity: Identity, timeout: real, deadline: real,
                      ghost from: real)
    returns (r: Result<Identity, RunError>)
    requires w.Kept(from, deadline) && identity == registered
    modifies w
    ensures w.Kept(from, deadline)
    ensures TransportTime(w.log) == old(TransportTime(w.log))
    ensures r.Ok? <==> timeout > 0.0 && Resolves(w, registered, old(w.resolves), old(w.readings), deadline)
    ensures r.Ok? ==> w.StandsAt(old(w.readings) + 2, old(w.resolves) + 1, old(w.chats))
    ensures r.Ok? ==> r.value == identity && Appended(old(w.log), w.log) && Saw(w.log[|w.log| - 1], identity)
    ensures r.Refused? ==> CallFault(r.error) && w.resolves <= old(w.resolves) + 1 && w.chats == old(w.chats)
  {
    r := ResolveIdentity(w, registered, timeout, deadline, from);
    if r.Ok? && r.value != identity {
      r := Refused(IdentityChanged);
    }
  }

  /** The chat that takes the given readings is answered, in time. */
  ghost predicate Chats(w: World, chat: nat, reading: nat, deadline: real) {
    w.responses(chat).Some? && w.clock(reading + 1) < deadline && w.clock(reading + 3) < deadline
  }

  /** The chat of `perform_call`, timed. A failing transport ends at the next reading as well. */
  method TimedChat(w: World, timeout: real, deadline: real, ghost from: real)
    returns (r: Result<Response, RunError>, elapsed: real)
    requires w.Kept(from, deadline)
    modifies w
    ensures w.Kept(from, deadline)
    ensures r.Ok? <==> timeout > 0.0 && Chats(w, old(w.chats), old(w.readings), deadline)
    ensures r.Ok? ==> w.StandsAt(old(w.readings) + 4, old(w.resolves), old(w.chats) + 1)
    ensures r.Ok? ==> Some(r.value) == w.responses(old(w.chats))
    ensures r.Ok? ==> elapsed >= 0.0 && TransportTime(w.log) == old(TransportTime(w.log)) + elapsed
    ensures r.Ok? ==>
      && Appended(old(w.log), w.log) && w.log[|w.log| - 1].Chat?
      && w.log[|w.log| - 1].response == Some(r.value) && w.log[|w.log| - 1].Transport() == elapsed
    ensures r.Refused? ==> CallFault(r.error) && w.resolves == old(w.resolves) && w.chats <= old(w.chats) + 1
  {
    elapsed := 0.0;
    ghost var before := w.readings;
    var started := w.Now();
    var active, reading := ActiveTimeout(w, timeout, deadline, None);
    if active.Refused? {
      ReadingKeeps(w, before, from, deadline);
      return Refused(active.error), elapsed;
    }
    assert Earlier(before - 1, before) && Earlier(before, w.readings);
    ghost var chat := Chat(started, reading, active.value, w.clock(w.readings), w.responses(w.chats));
    SequentialNext(w.log, from, w.clock(before - 1), chat, w.clock(w.readings));
    var response := w.ChatOnce(active.value, started, reading);
    before := w.readings + 1;
    var ended := w.Now();
    elapsed := ended - started;
    if response.None? {
      ReadingKeeps(w, before, from, deadline);
      return Refused(TransportFailed), elapsed;
    }
    var intime := RequireDeadline(w, deadline);
    ReadingKeeps(w, before, from, deadline);
    if !intime {
      return Refused(DeadlineExhausted), elapsed;
    }
    r := Ok(response.value);
  }

  /** `_completion_proof`, the model name, and `_response_content`. */
  function Content(identity: Identity, response: Response): Result<string, RunError> {
    if !response.done || !response.stopped then Refused(BadCompletion)
    else if response.model != identity.requested && response.model != identity.name then Refused(WrongModel)
    else if response.content.None? then Refused(BadMessage)
    else Ok(response.content.value)
  }

  /** The receipt retains what the chat answered, and how long it took. */
  ghost predicate Records(receipt: Receipt, chat: Op)
    requires chat.Chat?
  {
    && chat.response.Some? && chat.response.value.content == Some(receipt.base.raw)
    && receipt.base.promptTokens == chat.response.value.promptTokens
    && receipt.base.outputTokens == chat.response.value.outputTokens
    && receipt.base.elapsed == chat.ended - chat.started
  }

  /** What a call makes of the response it gets. */
  function Answer(o: Oracle, identity: Identity, spec: CallSpec, response: Option<Response>)
    : Result<Classification.Decoded, RunError>
  {
    match response
    case None => Refused(TransportFailed)
    case Some(r) =>
      match Content(identity, r)
      case Refused(e) => Refused(e)
      case Ok(raw) =>
        match DecodeRaw(o, raw, spec.ids)
        case Refused(e) => Refused(e)
        case Ok(decoded) =>
          match ProveContext(o, Prompt(spec), r.promptTokens, r.outputTokens, ExpectedOptions(|spec.ids|))
          case Refused(e) => Refused(e)
          case Ok(_) => Ok(decoded)
  }

  /** A response that answers the call: finished at a stop, under either name of the model, its
      content read as a decision of the call's candidates, and prompt and completion within the
      context. */
  ghost predicate WellAnswered(o: Oracle, identity: Identity, spec: CallSpec, response: Option<Response>) {
    && response.Some?
    && var r := response.value;
       && r.done && r.stopped && (r.model == identity.requested || r.model == identity.name) && r.content.Some?
       && o.parse(r.content.value).Some?
       && ResponseReading.DecodeJson(o.parse(r.content.value).value, spec.ids).Ok?
       && r.promptTokens >= 1 && r.promptTokens + r.outputTokens < 16384
       && 0 <= r.outputTokens <= (if |spec.ids| <= 42 then 32 + 96 * |spec.ids| else 4096)
       && o.estimate(spec.system + "\n" + spec.user, r.promptTokens, 16384).Some?
  }

  lemma ContentMeans(identity: Identity, r: Response)
    ensures Content(identity, r).Ok? <==>
      r.done && r.stopped && (r.model == identity.requested || r.model == identity.name) && r.content.Some?
    ensures Content(identity, r).Ok? ==> Content(identity, r).value == r.content.value
  {
  }

  lemma ReadingMeans(o: Oracle, raw: string, ids: seq<string>)
    ensures DecodeRaw(o, raw, ids).Ok? <==>
      o.parse(raw).Some? && ResponseReading.DecodeJson(o.parse(raw).value, ids).Ok?
    ensures DecodeRaw(o, raw, ids).Ok? ==>
      DecodeRaw(o, raw, ids).value == ResponseReading.DecodeJson(o.parse(raw).value, ids).value
  {
  }

  lemma ContextMeans(o: Oracle, spec: CallSpec, promptTokens: int, outputTokens: int)
    ensures ProveContext(o, Prompt(spec), promptTokens, outputTokens, ExpectedOptions(|spec.ids|)).Ok? <==>
      && promptTokens >= 1 && promptTokens + outputTokens < 16384
      && 0 <= outputTokens <= (if |spec.ids| <= 42 then 32 + 96 * |spec.ids| else 4096)
      && o.estimate(spec.system + "\n" + spec.user, promptTokens, 16384).Some?
  {
  }

  /** A call is answered exactly by such a response, and then as its content reads. */
  lemma AnswersExactly(o: Oracle, identity: Identity, spec: CallSpec, response: Option<Response>)
    ensures Answer(o, identity, spec, response).Ok? <==> WellAnswered(o, identity, spec, response)
    ensures WellAnswered(o, identity, spec, response) ==>
      Answer(o, identity, spec, response).value
        == ResponseReading.DecodeJson(o.parse(response.value.content.value).value, spec.ids).value
  {
    if response.Some? {
      var r := response.value;
      ContentMeans(identity, r);
      ContextMeans(o, spec, r.promptTokens, r.outputTokens);
      if r.content.Some? { ReadingMeans(o, r.content.value, spec.ids); }
    }
  }

  /** What the transport's `k`-th chat would make of a call, and that it is so. */
  type AnswerOf = (CallSpec, nat) -> Result<Classification.Decoded, RunError>

  ghost predicate IsAnswer(w: World, o: Oracle, identity: Identity, answer: AnswerOf) {
    forall spec, k: nat {:trigger Answer(o, identity, spec, w.responses(k))} ::
      answer(spec, k) == Answer(o, identity, spec, w.responses(k))
  }

  /** The call that takes the given readings goes through: it is answered, and everything is in
      time and under the registered identity. */
  ghost predicate Goes(w: World, answer: AnswerOf, registered: Identity, spec: CallSpec, reading: nat, resolve: nat,
                       chat: nat, deadline: real)
  {
    && answer(spec, chat).Ok?
    && w.identities(resolve) == Some(registered) && w.identities(resolve + 1) == Some(registered)
    && w.clock(reading + 7) < deadline
  }

  /** The operations of `perform_call`: a chat between two boundary checks. */
  method Exchange(w: World, registered: Identity, identity: Identity, timeout: real, deadline: real, ghost from: real)
    returns (r: Result<(Identity, Response, Identity), RunError>, elapsed: real)
    requires w.Kept(from, deadline) && identity == registered && timeout > 0.0
    modifies w
    ensures w.Kept(from, deadline)
    ensures r.Ok? <==>
      && w.responses(old(w.chats)).Some? && w.clock(old(w.readings) + 7) < deadline
      && w.identities(old(w.resolves)) == Some(registered) && w.identities(old(w.resolves) + 1) == Some(registered)
    ensures r.Ok? ==> w.StandsAt(old(w.readings) + 8, old(w.resolves) + 2, old(w.chats) + 1)
    ensures r.Ok? ==> Some(r.value.1) == w.responses(old(w.chats)) && r.value.0 == r.value.2 == identity
    ensures r.Ok? ==> elapsed >= 0.0 && TransportTime(w.log) == old(TransportTime(w.log)) + elapsed
    ensures r.Ok? ==>
      && CalledOnce(old(w.log), w.log, identity)
      && w.log[|w.log| - 2].response == Some(r.value.1) && w.log[|w.log| - 2].Transport() == elapsed
    ensures r.Refused? ==> CallFault(r.error) && w.resolves <= old(w.resolves) + 2 && w.chats <= old(w.chats) + 1
  {
    elapsed := 0.0;
    if w.clock(w.readings + 7) < deadline {
      InTimeBefore(w, w.readings + 7, deadline);
    }
    var before := ResolveAgain(w, registered, identity, timeout, deadline, from);
    if before.Refused? {
      return Refused(before.error), elapsed;
    }
    var response;
    response, elapsed := TimedChat(w, timeout, deadline, from);
    if response.Refused? {
      return Refused(response.error), elapsed;
    }
    var after := ResolveAgain(w, registered, identity, timeout, deadline, from);
    if after.Refused? {
      return Refused(after.error), elapsed;
    }
    r := Ok((before.value, response.value, after.value));
  }

  /** The response of a call: read, its context proved, and the receipt made. What the receipt
      validates to is what the response was read as. */
  method Receive(o: Oracle, identity: Identity, spec: CallSpec, response: Response, before: Identity, after: Identity,
                 elapsed: real)
    returns (r: Result<(Receipt, Classification.Decoded), RunError>)
    requires before == after == identity && elapsed >= 0.0
    ensures r.Ok? <==> Answer(o, identity, spec, Some(response)).Ok?
    ensures r.Ok? ==> Answer(o, identity, spec, Some(response)) == Ok(r.value.1)
    ensures r.Ok? ==> ValidateReceipt(o, r.value.0, spec, identity) == Ok(r.value.1)
    ensures r.Ok? ==>
      && response.content == Some(r.value.0.base.raw) && r.value.0.base.promptTokens == response.promptTokens
      && r.value.0.base.outputTokens == response.outputTokens && r.value.0.base.elapsed == elapsed
    ensures r.Refused? ==> CallFault(r.error)
  {
    var raw := Content(identity, response);
    if raw.Refused? {
      return Refused(raw.error);
    }
    var decoded := DecodeRaw(o, raw.value, spec.ids);
    if decoded.Refused? {
      return Refused(decoded.error);
    }
    var context := ProveContext(o, Prompt(spec), response.promptTokens, response.outputTokens,
                                ExpectedOptions(|spec.ids|));
    if context.Refused? {
      return Refused(context.error);
    }
    var receipt := MakeReceipt(o, spec, identity, before, after, raw.value, decoded.value.counts,
                               response.promptTokens, response.outputTokens, context.value, elapsed);
    MadeValidates(o, spec, identity, raw.value, decoded.value, response.promptTokens, response.outputTokens,
                  context.value, elapsed);
    r := Ok((receipt, decoded.value));
  }

  /** `perform_call`: bounded, and what it returns is what a replay re-derives. */
  method PerformCall(w: World, o: Oracle, ghost check: ReceiptCheck, ghost answer: AnswerOf, registered: Identity,
                     identity: Identity, timeout: real, spec: CallSpec, deadline: real, ghost from: real)
    returns (r: Result<(Receipt, Classification.Decoded), RunError>)
    requires w.Kept(from, deadline) && identity == registered && timeout > 0.0
    requires IsValidator(o, check) && IsAnswer(w, o, identity, answer)
    modifies w
    ensures w.Kept(from, deadline)
    ensures r.Ok? <==>
      Goes(w, answer, registered, spec, old(w.readings), old(w.resolves), old(w.chats), deadline)
    ensures r.Ok? ==> w.StandsAt(old(w.readings) + 8, old(w.resolves) + 2, old(w.chats) + 1)
    ensures r.Ok? ==> answer(spec, old(w.chats)) == Ok(r.value.1)
    ensures r.Ok? ==> check(r.value.0, spec, identity) == Ok(r.value.1)
    ensures r.Ok? ==> TransportTime(w.log) == old(TransportTime(w.log)) + r.value.0.base.elapsed
    ensures r.Ok? ==>
      CalledOnce(old(w.log), w.log, identity) && Records(r.value.0, w.log[|w.log| - 2])
    ensures r.Refused? ==> CallFault(r.error) && w.resolves <= old(w.resolves) + 2 && w.chats <= old(w.chats) + 1
  {
    ghost var answered := Answer(o, identity, spec, w.responses(w.chats));
    assert answer(spec, w.chats) == answered;
    assert answered.Ok? ==> w.responses(w.chats).Some?;
    var exchange, elapsed := Exchange(w, registered, identity, timeout, deadline, from);
    if exchange.Refused? {
      return Refused(exchange.error);
    }
    var (before, response, after) := exchange.value;
    r := Receive(o, identity, spec, response, before, after, elapsed);
    assert r.Ok? ==> check(r.value.0, spec, identity) == ValidateReceipt(o, r.value.0, spec, identity);
  }
}
