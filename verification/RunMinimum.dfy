/** The registered result against the reference behind its ledger. */
module RunMinimum {
  import opened RunResult
  import ReviewLedger

  /** No result replays with fewer kept candidates than the reference published as its minimum,
      when the review it was promoted through rejected nothing. */
  lemma ReplayKeepsMinimum(check: ReceiptCheck, setup: Setup, result: Final, env: ReviewLedger.Env,
                           registration: string, anchorOnly: bool, inputs: seq<ReviewLedger.EventInput>,
                           ds: ReviewLedger.Decisions, reference: ReviewLedger.Reference)
    requires setup.batchSize > 0 && DecidesInOrder(check) && Replayed(check, setup, result).Ok?
    requires ReviewLedger.ReferenceOk(env, setup.candidates, anchorOnly, inputs, reference)
    requires ReviewLedger.ReviewOk(env, registration, ds, reference)
    requires forall i | 0 <= i < |ds.events| :: ReviewLedger.Retains(ds.events[i])
    requires setup.events == ReviewLedger.PromotedBase(env, registration, ds, reference).events
    ensures |reference.minimum| <= result.body.summary.keep <= 64
  {
    ReplayGuarantees(check, setup, result);
    ReviewLedger.KeepsAtLeastMinimum(env, registration, setup.candidates, anchorOnly, inputs, ds, reference,
                                     result.body.summary.decisions);
  }
}
