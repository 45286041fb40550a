/** The product run: what is offered, how it is decided batch by batch, and the gates behind it. */
module ProductRun {
  import opened Common
  import opened Evidence
  import opened RunResult
  import Classification
  import Pruning
  import Exposure

  datatype ProductError =
    | BadStride | BadBatchSize | OverTime | BadBatch(reason: Classification.DecodeError) | BadVerdicts | WrongCount
    | Unpruned(why: Pruning.PruneError) | OverBudget | BelowRecall

  /** What is registered of the run. */
  datatype Plan = Plan(stride: int, batchSize: int, budget: int, floor: int, maxGap: int, keepLimit: int,
                       elapsedLimit: real)

  datatype Product = Product(offered: seq<Candidate>, decisions: seq<Decision>, pruned: Pruning.Pruned, recalled: nat)

  /** The verdicts the transport gives in a call, by its place and the batch asked about. */
  type Transport = (nat, seq<Candidate>) -> seq<string>

  // ---- The offer ----

  /** `candidates[i::stride]`. */
  function Offered(candidates: seq<Candidate>, stride: nat, i: nat): seq<Candidate>
    requires stride > 0
    decreases |candidates| - i
  {
    if i >= |candidates| then [] else [candidates[i]] + Offered(candidates, stride, i + stride)
  }

  lemma StrideOn(stride: nat, i: nat, k: nat)
    requires k > 0
    ensures i + k * stride == (i + stride) + (k - 1) * stride
  {
  }

  /** The k-th candidate offered is the one at `i + k * stride`, as long as there is one. */
  lemma {:induction false} OfferedAt(candidates: seq<Candidate>, stride: nat, i: nat, k: nat)
    requires stride > 0
    ensures k < |Offered(candidates, stride, i)| <==> i + k * stride < |candidates|
    ensures k < |Offered(candidates, stride, i)| ==> Offered(candidates, stride, i)[k] == candidates[i + k * stride]
    decreases k
  {
    if k == 0 {
    } else {
      StrideOn(stride, i, k);
      if i < |candidates| {
        OfferedAt(candidates, stride, i + stride, k - 1);
      }
    }
  }

  lemma LaterIsFurther(stride: nat, k: nat, l: nat)
    requires stride > 0 && k < l
    ensures k * stride < l * stride
  {
    assert l * stride == k * stride + (l - k) * stride;
  }

  lemma OfferedDiffer(candidates: seq<Candidate>, stride: nat, k: nat, l: nat)
    requires stride > 0 && Distinct(Ids(candidates)) && k < l < |Offered(candidates, stride, 0)|
    ensures Offered(candidates, stride, 0)[k].id != Offered(candidates, stride, 0)[l].id
  {
    OfferedAt(candidates, stride, 0, k);
    OfferedAt(candidates, stride, 0, l);
    LaterIsFurther(stride, k, l);
    var ids := Ids(candidates);
    assert ids[k * stride] != ids[l * stride];
  }

  /** Offering keeps IDs distinct, and brings in no candidate of its own. */
  lemma OfferedKeeps(candidates: seq<Candidate>, stride: nat)
    requires stride > 0
    ensures Distinct(Ids(candidates)) ==> Distinct(Ids(Offered(candidates, stride, 0)))
    ensures forall c | c in Offered(candidates, stride, 0) :: c in candidates
  {
    var offered := Offered(candidates, stride, 0);
    forall c | c in offered ensures c in candidates {
      var k :| 0 <= k < |offered| && offered[k] == c;
      OfferedAt(candidates, stride, 0, k);
    }
    if Distinct(Ids(candidates)) {
      forall k, l | 0 <= k < l < |offered| ensures Ids(offered)[k] != Ids(offered)[l] {
        OfferedDiffer(candidates, stride, k, l);
      }
    }
  }

  // ---- Deciding ----

  /** Verdicts put to the candidates of a batch, as far as both go. */
  function Zip(batch: seq<Candidate>, verdicts: seq<string>): seq<Decision> {
    var n := if |verdicts| < |batch| then |verdicts| else |batch|;
    seq(n, i requires 0 <= i < n => Decision(batch[i].id, Classification.VerdictOf(verdicts[i])))
  }

  /** The batch may be asked about, and this answers it, one word for each candidate. */
  ghost predicate Answers(batch: seq<Candidate>, verdicts: seq<string>) {
    && 1 <= |batch| <= 99 && "" !in Ids(batch) && Distinct(Ids(batch))
    && |verdicts| == |batch| && forall v | v in verdicts :: v == "KEEP" || v == "ABSTAIN"
  }

  ghost predicate AllAnswered(batches: seq<seq<Candidate>>, transport: Transport, n: nat)
    requires n <= |batches|
  {
    forall k | 0 <= k < n :: Answers(batches[k], transport(k, batches[k]))
  }

  /** What the transport's verdicts decide in the first `n` batches. */
  function Decided(batches: seq<seq<Candidate>>, transport: Transport, n: nat): seq<Decision>
    requires n <= |batches|
  {
    if n == 0 then []
    else Decided(batches, transport, n - 1) + Zip(batches[n - 1], transport(n - 1, batches[n - 1]))
  }

  lemma ZipIds(before: seq<Decision>, earlier: seq<Candidate>, batch: seq<Candidate>, verdicts: seq<string>)
    requires DecisionIds(before) == Ids(earlier) && |verdicts| == |batch|
    ensures DecisionIds(before + Zip(batch, verdicts)) == Ids(earlier + batch)
  {
    var ds, cs := before + Zip(batch, verdicts), earlier + batch;
    assert |before| == |DecisionIds(before)| == |earlier|;
    forall i | 0 <= i < |ds| ensures DecisionIds(ds)[i] == Ids(cs)[i] {
      if i < |before| {
        assert DecisionIds(before)[i] == Ids(earlier)[i];
      }
    }
  }

  lemma {:induction false} DecidedIds(batches: seq<seq<Candidate>>, transport: Transport, n: nat)
    requires n <= |batches| && AllAnswered(batches, transport, n)
    ensures DecisionIds(Decided(batches, transport, n)) == Ids(Concat(batches[..n]))
  {
    if n == 0 {
    } else {
      DecidedIds(batches, transport, n - 1);
      PrefixNext(batches, n - 1);
      ConcatAppend(batches[..n - 1], batches[n - 1]);
      var last := transport(n - 1, batches[n - 1]);
      assert Answers(batches[n - 1], last);
      ZipIds(Decided(batches, transport, n - 1), Concat(batches[..n - 1]), batches[n - 1], last);
    }
  }

  lemma AllDecided(offered: seq<Candidate>, batchSize: nat, transport: Transport)
    requires batchSize > 0
    requires AllAnswered(Batches(offered, batchSize), transport, |Batches(offered, batchSize)|)
    ensures var batches := Batches(offered, batchSize);
            DecisionIds(Decided(batches, transport, |batches|)) == Ids(offered)
  {
    var batches := Batches(offered, batchSize);
    BatchesConcat(offered, batchSize);
    DecidedIds(batches, transport, |batches|);
    assert batches[..|batches|] == batches;
  }

  /** One batch of the classifier loop: the transport's verdicts pass through assembling and
      decoding unchanged. */
  method DecideBatch(batch: seq<Candidate>, transport: Transport, k: nat)
    returns (r: Result<seq<Decision>, ProductError>)
    ensures r.Ok? <==> Answers(batch, transport(k, batch))
    ensures r.Ok? ==> r.value == Zip(batch, transport(k, batch))
    ensures r.Ok? ==> Classification.Spelled(transport(k, batch), Ids(batch), r.value)
    ensures r.Refused? ==> r.error.BadBatch? || r.error.BadVerdicts?
  {
    var ids := Ids(batch);
    var locators := Classification.BatchLocators(ids);
    if locators.Refused? {
      return Refused(BadBatch(locators.error));
    }
    var verdicts := transport(k, batch);
    if |verdicts| != |ids| || exists v :: v in verdicts && !Classification.IsVerdict(v) {
      return Refused(BadVerdicts);
    }
    var decoded := Classification.DecodeClassification(Classification.Assemble(verdicts), ids);
    Classification.AssembleRoundTrip(verdicts, ids);
    r := Ok(decoded.value.items);
  }

  /** In what is decided, a candidate of a batch is kept exactly where its word is KEEP. */
  lemma {:induction false} DecidedSays(batches: seq<seq<Candidate>>, transport: Transport, n: nat, k: nat, j: nat)
    requires k < n <= |batches| && AllAnswered(batches, transport, n) && j < |batches[k]|
    ensures Answers(batches[k], transport(k, batches[k]))
    ensures var verdict := if transport(k, batches[k])[j] == "KEEP" then KEEP else ABSTAIN;
            Decision(batches[k][j].id, verdict) in Decided(batches, transport, n)
  {
    assert Answers(batches[k], transport(k, batches[k]));
    if k < n - 1 {
      DecidedSays(batches, transport, n - 1, k, j);
    } else {
      assert Zip(batches[k], transport(k, batches[k]))[j] in Zip(batches[k], transport(k, batches[k]));
    }
  }

  /** And nothing else is decided. */
  lemma {:induction false} DecidedFrom(batches: seq<seq<Candidate>>, transport: Transport, n: nat, d: Decision)
    returns (k: nat, j: nat)
    requires n <= |batches| && AllAnswered(batches, transport, n) && d in Decided(batches, transport, n)
    ensures k < n && j < |batches[k]| == |transport(k, batches[k])| && d.id == batches[k][j].id
    ensures d.verdict == KEEP <==> transport(k, batches[k])[j] == "KEEP"
  {
    var last := Zip(batches[n - 1], transport(n - 1, batches[n - 1]));
    if d in last {
      k := n - 1;
      assert Answers(batches[k], transport(k, batches[k]));
      j :| 0 <= j < |last| && last[j] == d;
    } else {
      k, j := DecidedFrom(batches, transport, n - 1, d);
    }
  }

  /** The reading before each of the first `n` batches is not past the deadline. */
  ghost predicate InTime(clock: nat -> real, deadline: real, n: nat) {
    forall k: nat | 1 <= k <= n :: clock(k) <= deadline
  }

  /** The classifier loop. */
  method Decide(offered: seq<Candidate>, batchSize: nat, transport: Transport, clock: nat -> real, deadline: real)
    returns (r: Result<seq<Decision>, ProductError>)
    requires batchSize > 0
    ensures r.Ok? <==>
      && AllAnswered(Batches(offered, batchSize), transport, |Batches(offered, batchSize)|)
      && InTime(clock, deadline, |Batches(offered, batchSize)|)
    ensures r.Ok? ==> r.value == Decided(Batches(offered, batchSize), transport, |Batches(offered, batchSize)|)
    ensures r.Ok? ==> DecisionIds(r.value) == Ids(offered)
    ensures r.Refused? ==> r.error.OverTime? || r.error.BadBatch? || r.error.BadVerdicts?
  {
    var batches := Batches(offered, batchSize);
    var rows: seq<Decision> := [];
    for k := 0 to |batches|
      invariant AllAnswered(batches, transport, k) && rows == Decided(batches, transport, k)
      invariant InTime(clock, deadline, k)
    {
      if clock(k + 1) > deadline {
        assert !InTime(clock, deadline, |batches|);
        return Refused(OverTime);
      }
      var items := DecideBatch(batches[k], transport, k);
      if items.Refused? {
        assert !AllAnswered(batches, transport, |batches|);
        return Refused(items.error);
      }
      rows := rows + items.value;
    }
    AllDecided(offered, batchSize, transport);
    r := Ok(rows);
  }

  lemma {:induction false} BatchMember(candidates: seq<Candidate>, size: nat, k: nat, j: nat)
    requires size > 0 && k < |Batches(candidates, size)| && j < |Batches(candidates, size)[k]|
    ensures Batches(candidates, size)[k][j] in candidates
  {
    if |candidates| > size && k > 0 {
      BatchMember(candidates[size..], size, k - 1, j);
    }
  }

  function Singles(candidates: seq<Candidate>): (r: seq<seq<Candidate>>)
    ensures |r| == |candidates|
  {
    seq(|candidates|, k requires 0 <= k < |candidates| => [candidates[k]])
  }

  lemma {:induction false} BatchesOfOne(candidates: seq<Candidate>)
    ensures Batches(candidates, 1) == Singles(candidates)
  {
    if |candidates| == 1 {
      assert candidates == [candidates[0]];
    } else if |candidates| > 1 {
      BatchesOfOne(candidates[1..]);
      var rest := [candidates[..1]] + Singles(candidates[1..]);
      forall k | 0 <= k < |candidates| ensures Singles(candidates)[k] == rest[k] {
        assert candidates[..1] == [candidates[0]];
      }
    }
  }

  /** Asked one at a time, the k-th decision is the k-th answer. */
  lemma {:induction false} DecidedSingly(candidates: seq<Candidate>, transport: Transport, n: nat, k: nat)
    requires k < n <= |candidates| && AllAnswered(Singles(candidates), transport, n)
    ensures var ds := Decided(Singles(candidates), transport, n);
            |ds| == n && [ds[k]] == Zip([candidates[k]], transport(k, [candidates[k]]))
  {
    var single := Singles(candidates)[n - 1];
    assert Answers(single, transport(n - 1, single));
    if n > 1 {
      DecidedSingly(candidates, transport, n - 1, if k < n - 1 then k else 0);
    }
  }

  /** At batch size 1, and with answers that depend on nothing but the candidate asked about, the
      verdicts on the offer are those a full offer gets. */
  lemma OfferDecidesAlike(candidates: seq<Candidate>, stride: nat, transport: Transport, k: nat)
    requires stride > 0 && forall i, j, batch :: transport(i, batch) == transport(j, batch)
    requires AllAnswered(Batches(candidates, 1), transport, |Batches(candidates, 1)|)
    requires k < |Offered(candidates, stride, 0)|
    ensures var offered := Batches(Offered(candidates, stride, 0), 1);
            var all := Batches(candidates, 1);
            && AllAnswered(offered, transport, |offered|)
            && k < |Decided(offered, transport, |offered|)| && k * stride < |Decided(all, transport, |all|)|
            && Decided(offered, transport, |offered|)[k] == Decided(all, transport, |all|)[k * stride]
  {
    var offer := Offered(candidates, stride, 0);
    BatchesOfOne(candidates);
    BatchesOfOne(offer);
    forall l | 0 <= l < |offer| ensures Answers(Singles(offer)[l], transport(l, Singles(offer)[l])) {
      OfferedAt(candidates, stride, 0, l);
      assert Answers(Singles(candidates)[l * stride], transport(l * stride, Singles(candidates)[l * stride]));
      assert transport(l, [offer[l]]) == transport(l * stride, [offer[l]]);
    }
    OfferedAt(candidates, stride, 0, k);
    DecidedSingly(candidates, transport, |candidates|, k * stride);
    DecidedSingly(offer, transport, |offer|, k);
    assert transport(k, [offer[k]]) == transport(k * stride, [offer[k]]);
  }

  // ---- Recall ----

  /** One of the candidates named shows one of the event's bundles. */
  ghost predicate RecalledBy(rows: map<string, Candidate>, keep: seq<Candidate>, e: Exposure.LedgerEvent) {
    exists c, b :: c in keep && b in e.bundles && c.id in rows && InView(rows[c.id], b)
  }

  ghost function RecallCount(rows: map<string, Candidate>, keep: seq<Candidate>, events: seq<Exposure.LedgerEvent>,
                             n: nat): nat
    requires n <= |events|
  {
    if n == 0 then 0
    else RecallCount(rows, keep, events, n - 1) + if RecalledBy(rows, keep, events[n - 1]) then 1 else 0
  }

  /** The places of the events recalled. */
  ghost function RecalledAmong(rows: map<string, Candidate>, keep: seq<Candidate>, events: seq<Exposure.LedgerEvent>,
                               n: nat): set<nat>
    requires n <= |events|
  {
    set i: nat | i < n && RecalledBy(rows, keep, events[i])
  }

  lemma RecalledNext(rows: map<string, Candidate>, keep: seq<Candidate>, events: seq<Exposure.LedgerEvent>, n: nat)
    requires n < |events|
    ensures var before := RecalledAmong(rows, keep, events, n);
            RecalledAmong(rows, keep, events, n + 1)
              == if RecalledBy(rows, keep, events[n]) then before + {n} else before
  {
    var before, after := RecalledAmong(rows, keep, events, n), RecalledAmong(rows, keep, events, n + 1);
    forall i: nat ensures i in after <==> i in before || (i == n && RecalledBy(rows, keep, events[n])) {
    }
  }

  /** The count is that of the events recalled. */
  lemma {:induction false} RecallCounts(rows: map<string, Candidate>, keep: seq<Candidate>,
                                        events: seq<Exposure.LedgerEvent>, n: nat)
    requires n <= |events|
    ensures RecallCount(rows, keep, events, n) == |RecalledAmong(rows, keep, events, n)|
  {
    if n == 0 {
      assert RecalledAmong(rows, keep, events, n) == {};
    } else {
      RecallCounts(rows, keep, events, n - 1);
      RecalledNext(rows, keep, events, n - 1);
    }
  }

  /** `_event_recall`. */
  method EventRecall(candidates: seq<Candidate>, keep: seq<Candidate>, events: seq<Exposure.LedgerEvent>)
    returns (recalled: nat)
    ensures recalled == RecallCount(ById(candidates), keep, events, |events|) <= |events|
  {
    var visible := ById(candidates);
    recalled := 0;
    for k := 0 to |events|
      invariant recalled == RecallCount(visible, keep, events, k) <= k
    {
      forall c, b | c in keep && c.id in visible && b in events[k].bundles
        ensures Shows(visible[c.id], b) <==> InView(visible[c.id], b)
      {
        ShowsMeans(visible[c.id], b);
      }
      if exists c, b :: c in keep && b in events[k].bundles && c.id in visible && Shows(visible[c.id], b) {
        recalled := recalled + 1;
      }
    }
  }

  // ---- The run ----

  /** A manifest: every candidate under its own ID, and later ones anchored no earlier. */
  ghost predicate Manifest(candidates: seq<Candidate>) {
    && Distinct(Ids(candidates))
    && forall a, b | a in candidates && b in candidates && a.ordinal <= b.ordinal :: a.anchorTurn <= b.anchorTurn
  }

  /** Decisions that name each candidate once cover the manifest. */
  lemma DecidedCovers(offered: seq<Candidate>, decisions: seq<Decision>)
    requires Distinct(Ids(offered)) && DecisionIds(decisions) == Ids(offered)
    ensures Pruning.Covers(ById(offered), decisions)
  {
    var rows := ById(offered);
    ByIdNames(offered);
    forall i, j | 0 <= i < j < |decisions| ensures decisions[i].id != decisions[j].id {
      assert decisions[i].id == DecisionIds(decisions)[i] && decisions[j].id == DecisionIds(decisions)[j];
    }
    forall id ensures id in rows <==> exists d :: d in decisions && d.id == id {
      if id in rows {
        var c :| c in offered && c.id == id;
        var k :| 0 <= k < |offered| && offered[k] == c;
        assert Ids(offered)[k] == DecisionIds(decisions)[k];
        assert decisions[k] in decisions;
      }
      if d :| d in decisions && d.id == id {
        var k :| 0 <= k < |decisions| && decisions[k] == d;
        assert DecisionIds(decisions)[k] == Ids(offered)[k];
        assert offered[k] in offered;
      }
    }
  }

  /** The offer, one decision for each candidate of it, and the fitted survivors. */
  ghost predicate PrunedOffer(plan: Plan, candidates: seq<Candidate>, p: Product) {
    && plan.stride > 0 && p.offered == Offered(candidates, plan.stride, 0)
    && DecisionIds(p.decisions) == Ids(p.offered)
    && Pruning.FitSpec(Pruning.Kept(p.offered, p.decisions), plan.budget, plan.floor, plan.maxGap,
                       Ok((p.pruned.fitted, p.pruned.survivors)))
  }

  /** The gates hold of what the run returns. */
  ghost predicate PassesGates(plan: Plan, candidates: seq<Candidate>, events: seq<Exposure.LedgerEvent>, p: Product)
  {
    && PrunedOffer(plan, candidates, p)
    && |p.pruned.survivors| <= plan.keepLimit
    && p.recalled == RecallCount(ById(candidates), p.pruned.survivors, events, |events|)
    && p.recalled * 13 >= 11 * |events|
  }

  /** Every offered candidate was asked about, and the decisions are the transport's answers. */
  ghost predicate AsAnswered(batchSize: nat, p: Product, transport: Transport)
    requires batchSize > 0
  {
    var batches := Batches(p.offered, batchSize);
    AllAnswered(batches, transport, |batches|) && p.decisions == Decided(batches, transport, |batches|)
  }

  /** Within the keep limit, the recall gate and the time limit. */
  ghost predicate WithinGates(plan: Plan, candidates: seq<Candidate>, events: seq<Exposure.LedgerEvent>, p: Product,
                              elapsed: real)
  {
    && |p.pruned.survivors| <= plan.keepLimit
    && RecallCount(ById(candidates), p.pruned.survivors, events, |events|) * 13 >= 11 * |events|
    && elapsed <= plan.elapsedLimit
  }

  /** The outcome of the gates: what is within them passes with its recall, and otherwise the first
      gate that is missed is the one named. */
  ghost predicate Ruled(plan: Plan, candidates: seq<Candidate>, events: seq<Exposure.LedgerEvent>, p: Product,
                        elapsed: real, r: Result<Product, ProductError>)
  {
    var over := |p.pruned.survivors| > plan.keepLimit;
    var missed := RecallCount(ById(candidates), p.pruned.survivors, events, |events|) * 13 < 11 * |events|;
    && (r.Ok? <==> WithinGates(plan, candidates, events, p, elapsed))
    && (r.Ok? ==> PassesGates(plan, candidates, events, r.value) && r.value.(recalled := p.recalled) == p)
    && (r == Refused(OverBudget) <==> over)
    && (r == Refused(BelowRecall) <==> !over && missed)
    && (r.Refused? ==> r.error.OverBudget? || r.error.BelowRecall? || r.error.OverTime?)
  }

  /** The three gates, on the recall measured of the survivors. */
  method Gate(plan: Plan, candidates: seq<Candidate>, events: seq<Exposure.LedgerEvent>, p: Product, elapsed: real)
    returns (r: Result<Product, ProductError>)
    requires PrunedOffer(plan, candidates, p)
    ensures Ruled(plan, candidates, events, p, elapsed, r)
  {
    var recalled := EventRecall(candidates, p.pruned.survivors, events);
    if |p.pruned.survivors| > plan.keepLimit {
      return Refused(OverBudget);
    }
    if recalled * 13 < 11 * |events| {
      return Refused(BelowRecall);
    }
    if elapsed > plan.elapsedLimit {
      return Refused(OverTime);
    }
    r := Ok(p.(recalled := recalled));
  }

  /** The count check and the pruner; neither refuses the decisions of a manifest. */
  method Prune(plan: Plan, candidates: seq<Candidate>, offered: seq<Candidate>, decisions: seq<Decision>)
    returns (r: Result<Product, ProductError>)
    requires plan.stride > 0 && offered == Offered(candidates, plan.stride, 0)
    ensures r.Ok? ==> r.value.offered == offered && r.value.decisions == decisions
    ensures r.Ok? && DecisionIds(decisions) == Ids(offered) ==> PrunedOffer(plan, candidates, r.value)
    ensures r.Refused? ==> r.error.Unpruned? || r.error.WrongCount?
    ensures DecisionIds(decisions) == Ids(offered) && Manifest(candidates) && plan.floor >= 1 ==> r.Ok?
  {
    if |decisions| != |offered| {
      return Refused(WrongCount);
    }
    var pruned := Pruning.PruneKeeps(offered, decisions, plan.budget, plan.floor, plan.maxGap);
    if DecisionIds(decisions) == Ids(offered) && Manifest(candidates) && plan.floor >= 1 {
      OfferedKeeps(candidates, plan.stride);
      DecidedCovers(offered, decisions);
      Pruning.ManifestKeepsTurnOrder(offered, decisions);
    }
    r := match pruned case Ok(p) => Ok(Product(offered, decisions, p, 0)) case Refused(e) => Refused(Unpruned(e));
  }

  /** The offer decided: pruned, and put to the gates. */
  method Judge(plan: Plan, candidates: seq<Candidate>, events: seq<Exposure.LedgerEvent>, offered: seq<Candidate>,
               decisions: seq<Decision>, elapsed: real)
    returns (r: Result<Product, ProductError>, ghost p: Product)
    requires plan.stride > 0 && offered == Offered(candidates, plan.stride, 0)
    requires DecisionIds(decisions) == Ids(offered)
    ensures r.Ok? ==> PassesGates(plan, candidates, events, r.value) && elapsed <= plan.elapsedLimit
    ensures r.Ok? ==> r.value.offered == offered && r.value.decisions == decisions
    ensures Manifest(candidates) && plan.floor >= 1 ==>
      && PrunedOffer(plan, candidates, p) && p.offered == offered && p.decisions == decisions
      && Ruled(plan, candidates, events, p, elapsed, r)
  {
    var fit := Prune(plan, candidates, offered, decisions);
    if fit.Refused? {
      p := Product(offered, decisions, Pruning.Pruned(0, 0, 0, None, []), 0);
      return Refused(fit.error), p;
    }
    p := fit.value;
    r := Gate(plan, candidates, events, fit.value, elapsed);
  }

  /** A registered plan over a manifest, with every batch answered in time: only a gate can refuse
      such a run. */
  ghost predicate Runs(plan: Plan, candidates: seq<Candidate>, transport: Transport, clock: nat -> real) {
    && plan.stride > 0 && plan.batchSize > 0 && plan.floor >= 1 && Manifest(candidates)
    && var batches := Batches(Offered(candidates, plan.stride, 0), plan.batchSize);
       AllAnswered(batches, transport, |batches|) && InTime(clock, clock(0) + plan.elapsedLimit, |batches|)
  }

  /** What becomes of such a run: its offer is decided by the transport's answers and pruned, and the
      gates rule on it at the reading after the last batch. */
  ghost predicate Settled(plan: Plan, candidates: seq<Candidate>, events: seq<Exposure.LedgerEvent>,
                          transport: Transport, clock: nat -> real, p: Product, r: Result<Product, ProductError>)
    requires plan.batchSize > 0
  {
    && PrunedOffer(plan, candidates, p) && AsAnswered(plan.batchSize, p, transport)
    && Ruled(plan, candidates, events, p, clock(|Batches(p.offered, plan.batchSize)| + 1) - clock(0), r)
  }

  /** `run_product_classifier`, from the offer on. The `n`-th clock reading is `clock(n)`; the
      first is the start. */
  method Run(plan: Plan, candidates: seq<Candidate>, events: seq<Exposure.LedgerEvent>, transport: Transport,
             clock: nat -> real)
    returns (r: Result<Product, ProductError>, ghost p: Product)
    ensures r.Ok? ==> var passed := PassesGates(plan, candidates, events, r.value); passed
    ensures r.Ok? ==> plan.batchSize > 0 && var answered := AsAnswered(plan.batchSize, r.value, transport); answered
    ensures r.Ok? ==> clock(|Batches(r.value.offered, plan.batchSize)| + 1) - clock(0) <= plan.elapsedLimit
    ensures r.Refused? && Manifest(candidates) && plan.floor >= 1 ==> !r.error.Unpruned? && !r.error.WrongCount?
    ensures var runs := Runs(plan, candidates, transport, clock);
            runs ==> Settled(plan, candidates, events, transport, clock, p, r)
  {
    p := Product([], [], Pruning.Pruned(0, 0, 0, None, []), 0);
    if plan.stride <= 0 {
      return Refused(BadStride), p;
    }
    if plan.batchSize <= 0 {
      return Refused(BadBatchSize), p;
    }
    var started := clock(0);
    var offered := Offered(candidates, plan.stride, 0);
    var decided := Decide(offered, plan.batchSize, transport, clock, started + plan.elapsedLimit);
    if decided.Refused? {
      return Refused(decided.error), p;
    }
    var elapsed := clock(|Batches(offered, plan.batchSize)| + 1) - started;
    r, p := Judge(plan, candidates, events, offered, decided.value, elapsed);
  }

  lemma OwnRow(offered: seq<Candidate>, row: Candidate)
    requires Distinct(Ids(offered)) && row in offered
    ensures row.id in ById(offered) && ById(offered)[row.id] == row
  {
    var i :| 0 <= i < |offered| && offered[i] == row;
    forall j | i < j < |offered| ensures offered[j].id != row.id {
      assert Ids(offered)[i] != Ids(offered)[j];
    }
    ByIdLast(offered, i);
  }

  /** What a run returns, the model kept: a survivor is an offered candidate that the transport was
      asked about and answered with the word KEEP. */
  lemma ProductWasKept(plan: Plan, candidates: seq<Candidate>, events: seq<Exposure.LedgerEvent>, p: Product,
                       transport: Transport, survivor: Candidate) returns (k: nat, j: nat)
    requires PassesGates(plan, candidates, events, p) && Manifest(candidates)
    requires plan.batchSize > 0 && AsAnswered(plan.batchSize, p, transport) && survivor in p.pruned.survivors
    ensures var batches := Batches(p.offered, plan.batchSize);
            && k < |batches| && j < |batches[k]| == |transport(k, batches[k])| && batches[k][j] == survivor
            && transport(k, batches[k])[j] == "KEEP"
  {
    var kept, batches := Pruning.Kept(p.offered, p.decisions), Batches(p.offered, plan.batchSize);
    OfferedKeeps(candidates, plan.stride);
    DecidedCovers(p.offered, p.decisions);
    Pruning.KeptMeans(p.offered, p.decisions);
    Pruning.FitPicksRows(kept, plan.budget, plan.floor, plan.maxGap, (p.pruned.fitted, p.pruned.survivors));
    Pruning.SubsequenceMembers(p.pruned.survivors, kept);
    k, j := DecidedFrom(batches, transport, |batches|, Decision(survivor.id, KEEP));
    BatchMember(p.offered, plan.batchSize, k, j);
    OwnRow(p.offered, batches[k][j]);
  }

  /** A run that passes its gates loses no stretch of the meeting: whatever the offer and the model
      kept has a survivor less than the fitted stride away, with an anchor at least as long. */
  lemma ProductCovers(plan: Plan, candidates: seq<Candidate>, events: seq<Exposure.LedgerEvent>, p: Product,
                      row: Candidate) returns (survivor: Candidate)
    requires PassesGates(plan, candidates, events, p) && Manifest(candidates) && plan.floor >= 1
    requires plan.keepLimit <= plan.budget && plan.maxGap >= 1
    requires row in p.offered && Decision(row.id, KEEP) in p.decisions
    ensures p.pruned.fitted.Some? && survivor in p.pruned.survivors
    ensures var stride := p.pruned.fitted.value.stride;
            -stride < survivor.anchorTurn - row.anchorTurn < stride
    ensures survivor.anchorCharEnd - survivor.anchorCharStart >= row.anchorCharEnd - row.anchorCharStart
  {
    var kept := Pruning.Kept(p.offered, p.decisions);
    OfferedKeeps(candidates, plan.stride);
    DecidedCovers(p.offered, p.decisions);
    Pruning.KeptMeans(p.offered, p.decisions);
    OwnRow(p.offered, row);
    Pruning.ManifestKeepsTurnOrder(p.offered, p.decisions);
    Pruning.FitExists(kept, plan.budget, plan.floor, plan.maxGap, Ok((p.pruned.fitted, p.pruned.survivors)));
    var fit := p.pruned.fitted.value;
    var run;
    run, survivor := Pruning.KeptRowIsCovered(kept, fit.gap, fit.stride, row);
  }
}
