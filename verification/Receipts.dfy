/** Call receipts: what one call retains, and how a replay re-derives it. */
module Receipts {
  import opened Common
  import opened RunClock
  import Classification
  import JsonData
  import ResponseReading

  datatype RunError =
    | BadTimeout | DeadlineExhausted | TransportFailed
    | WrongIdentity | IdentityChanged
    | BadCompletion | WrongModel | BadMessage | BadResponse(error: ResponseReading.ReadError) | BadContext
    | ReceiptDoesNotRederive | WrongReceiptCount | SemanticsRefused
    | WrongBatchCount | WrongDecisions | ExposureChanged | NotExposed | NotRecalled | TooManyKept
    | ElapsedTooShort | ElapsedTooLong | NoOuterTime | ResultDoesNotReplay

  datatype CallOptions = CallOptions(numCtx: int, numPredict: int)

  datatype ContextProof = ContextProof(estimated: int, total: int, numCtx: int)

  /** What is asked in one call. */
  datatype CallSpec = CallSpec(ordinal: nat, kind: string, batch: Option<nat>, contract: string, system: string,
                               user: string, schema: string, ids: seq<string>)

  datatype ReceiptBase = ReceiptBase(
    ordinal: nat, kind: string, batch: Option<nat>, ids: seq<string>, idsDigest: string,
    model: string, resolvedModel: string, modelDigest: string, before: Identity, after: Identity,
    options: CallOptions, schema: string, schemaDigest: string, contract: string, systemDigest: string,
    userDigest: string,
    raw: string, rawDigest: string, counts: Classification.Counts,
    promptTokens: int, outputTokens: int, context: ContextProof, elapsed: real)

  datatype Receipt = Receipt(base: ReceiptBase, digest: string)

  /** What the source takes from elsewhere: digests, the JSON parser, and the context estimate
      (none when the prompt was not read in full). */
  datatype Oracle = Oracle(
    textDigest: string -> string,
    idsDigest: seq<string> -> string,
    receiptDigest: ReceiptBase -> string,
    parse: string -> Option<JsonData.Json>,
    estimate: (string, int, int) -> Option<int>)

  const NUM_CTX := 16384
  const PREDICT_MAX := 4096
  const PREDICT_BASE := 32
  const PREDICT_PER_ITEM := 96

  /** `_expected_options`. */
  function ExpectedOptions(count: nat): CallOptions {
    var wanted := PREDICT_BASE + PREDICT_PER_ITEM * count;
    CallOptions(NUM_CTX, if wanted < PREDICT_MAX then wanted else PREDICT_MAX)
  }

  /** `_context_proof`. */
  function ProveContext(o: Oracle, prompt: string, promptTokens: int, outputTokens: int, options: CallOptions)
    : Result<ContextProof, RunError>
  {
    if promptTokens < 1 || outputTokens < 0 then Refused(BadContext)
    else
      match o.estimate(prompt, promptTokens, options.numCtx)
      case None => Refused(BadContext)
      case Some(estimated) =>
        if outputTokens > options.numPredict || promptTokens + outputTokens >= options.numCtx then Refused(BadContext)
        else Ok(ContextProof(estimated, promptTokens + outputTokens, options.numCtx))
  }

  /** `decode_classification` on the retained text: IDs first, then the parser, then the reading. */
  function DecodeRaw(o: Oracle, raw: string, ids: seq<string>): Result<Classification.Decoded, RunError> {
    if !Classification.ValidIds(ids) then
      Refused(BadResponse(ResponseReading.BadRows(Classification.BadCandidateIds)))
    else
      match o.parse(raw)
      case None => Refused(BadMessage)
      case Some(parsed) =>
        match ResponseReading.DecodeJson(parsed, ids)
        case Ok(decoded) => Ok(decoded)
        case Refused(e) => Refused(BadResponse(e))
  }

  /** The receipt a call of `spec` leaves behind. */
  function MakeReceipt(o: Oracle, spec: CallSpec, identity: Identity, before: Identity, after: Identity, raw: string,
                       counts: Classification.Counts, promptTokens: int, outputTokens: int, context: ContextProof,
                       elapsed: real): Receipt
  {
    var base := ReceiptBase(
      spec.ordinal, spec.kind, spec.batch, spec.ids, o.idsDigest(spec.ids),
      identity.requested, identity.name, identity.digest, before, after,
      ExpectedOptions(|spec.ids|), spec.schema, o.textDigest(spec.schema), spec.contract,
      o.textDigest(spec.system), o.textDigest(spec.user),
      raw, o.textDigest(raw), counts, promptTokens, outputTokens, context, elapsed);
    Receipt(base, o.receiptDigest(base))
  }

  /** Every field that `validate_call_receipt` compares. */
  predicate Rederives(o: Oracle, b: ReceiptBase, spec: CallSpec, identity: Identity, counts: Classification.Counts,
                      context: ContextProof)
  {
    && b.ordinal == spec.ordinal && b.kind == spec.kind && b.batch == spec.batch
    && b.ids == spec.ids && b.idsDigest == o.idsDigest(spec.ids)
    && b.model == identity.requested && b.resolvedModel == identity.name && b.modelDigest == identity.digest
    && b.before == identity && b.after == identity
    && b.options == ExpectedOptions(|spec.ids|)
    && b.schema == spec.schema && b.schemaDigest == o.textDigest(spec.schema)
    && b.contract == spec.contract
    && b.systemDigest == o.textDigest(spec.system) && b.userDigest == o.textDigest(spec.user)
    && b.rawDigest == o.textDigest(b.raw) && b.counts == counts && b.context == context && b.elapsed >= 0.0
  }

  function Prompt(spec: CallSpec): string {
    spec.system + "\n" + spec.user
  }

  /** `validate_call_receipt`. */
  function ValidateReceipt(o: Oracle, r: Receipt, spec: CallSpec, identity: Identity)
    : Result<Classification.Decoded, RunError>
  {
    match DecodeRaw(o, r.base.raw, spec.ids)
    case Refused(e) => Refused(e)
    case Ok(decoded) =>
      match ProveContext(o, Prompt(spec), r.base.promptTokens, r.base.outputTokens, ExpectedOptions(|spec.ids|))
      case Refused(e) => Refused(e)
      case Ok(context) =>
        if Rederives(o, r.base, spec, identity, decoded.counts, context) && r.digest == o.receiptDigest(r.base) then
          Ok(decoded)
        else Refused(ReceiptDoesNotRederive)
  }

  /** What a call leaves behind validates, as what the call decoded. */
  lemma MadeValidates(o: Oracle, spec: CallSpec, identity: Identity, raw: string, decoded: Classification.Decoded,
                      promptTokens: int, outputTokens: int, context: ContextProof, elapsed: real)
    requires DecodeRaw(o, raw, spec.ids) == Ok(decoded) && elapsed >= 0.0
    requires ProveContext(o, Prompt(spec), promptTokens, outputTokens, ExpectedOptions(|spec.ids|)) == Ok(context)
    ensures var r := MakeReceipt(o, spec, identity, identity, identity, raw, decoded.counts, promptTokens,
                                 outputTokens, context, elapsed);
            ValidateReceipt(o, r, spec, identity) == Ok(decoded)
  {
  }

  /** A receipt that validates is, but for the digests' inputs, the one this call would leave:
      validation pins every field. */
  lemma ValidatedIsMade(o: Oracle, r: Receipt, spec: CallSpec, identity: Identity)
    requires ValidateReceipt(o, r, spec, identity).Ok?
    ensures var d := ValidateReceipt(o, r, spec, identity).value;
            r == MakeReceipt(o, spec, identity, identity, identity, r.base.raw, d.counts, r.base.promptTokens,
                             r.base.outputTokens, r.base.context, r.base.elapsed)
    ensures DecodeRaw(o, r.base.raw, spec.ids) == ValidateReceipt(o, r, spec, identity)
  {
  }
}
