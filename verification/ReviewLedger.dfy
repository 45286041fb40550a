/** From a reviewed reference to a runner ledger: `create_reference`, `validate_review_decisions`,
    `build_runner_ledger`, and the checks the runner repeats on the result. */
module ReviewLedger {
  import opened Common
  import opened Evidence
  import opened Exposure
  import HittingSet
  import Sections

  datatype EventInput = EventInput(id: string, kind: Kind, proposition: string, candidateIds: seq<string>)

  datatype Bundle = Bundle(digest: string, fragments: seq<string>)

  datatype RefEvent = RefEvent(id: string, kind: Kind, proposition: string, bundles: seq<Bundle>)

  datatype Reference = Reference(digest: string, view: string, events: seq<RefEvent>, sections: seq<string>,
                                 minimum: seq<string>)

  datatype Disposition = ACCEPT | EDIT | REJECT

  datatype EventDecision = EventDecision(id: string, disposition: Disposition, kind: Kind, proposition: string,
                                         selected: seq<string>, ambiguity: string)

  datatype Resolution = NO_MISSING_EVENT | MISSING_EVENT_REPORTED

  datatype SectionDecision = SectionDecision(id: string, reviewed: bool, resolution: Resolution, notes: string)

  datatype Decisions = Decisions(reference: string, registration: string, events: seq<EventDecision>,
                                 sections: seq<SectionDecision>)

  datatype Base = Base(registration: string, view: string, reference: string, decisions: string,
                       events: seq<LedgerEvent>)

  datatype Ledger = Ledger(base: Base, digest: string)

  /** What the source takes from libraries: whitespace and case normalisation, and SHA-256. */
  datatype Env = Env(
    strip: string -> string,
    normalize: string -> string,
    textDigest: string -> string,
    bundleDigest: (Candidate, seq<string>) -> string,
    decisionsDigest: Decisions -> string,
    ledgerDigest: Base -> string)
  {
    predicate blank(s: string) {
      strip(s) == ""
    }
  }

  ghost predicate Digests(env: Env) {
    && (forall t :: IsSha(env.textDigest(t))) && (forall d :: IsSha(env.decisionsDigest(d)))
    && (forall b :: IsSha(env.ledgerDigest(b)))
  }

  datatype LedgerError =
    | BadEvent | UnknownCandidate | BadSectionSize
    | WrongInputs | WrongCoverage | BadDecision | DuplicateProposition | BadSections
    | MissingEvents | NothingRetained
    | BadShape

  // ---- The reference ----

  /** What the manifest validator guarantees of every candidate, for a visible window. */
  ghost predicate ManifestOk(candidates: seq<Candidate>, window: nat) {
    && (forall i, j | 0 <= i < j < |candidates| :: candidates[i].id != candidates[j].id)
    && forall c | c in candidates ::
         && 1 <= |c.visible| <= 2 * window + 1 && Distinct(c.visible) && "" !in c.visible
         && c.anchorFragment in c.visible
  }

  /** `_event_input` on one event. */
  ghost predicate InputOk(env: Env, e: EventInput) {
    && e.id != "" && !env.blank(e.proposition)
    && e.candidateIds != [] && Distinct(e.candidateIds) && "" !in e.candidateIds
  }

  /** The fragments a candidate's bundle stands for: the anchor alone, or all that is visible. */
  function BundleOf(env: Env, c: Candidate, anchorOnly: bool): Bundle {
    var fragments := if anchorOnly then [c.anchorFragment] else c.visible;
    Bundle(env.bundleDigest(c, fragments), fragments)
  }

  /** The bundle shows the anchor alone, or all that is visible, under its own digest. */
  ghost predicate Bundles(env: Env, c: Candidate, anchorOnly: bool, b: Bundle) {
    && b.fragments == (if anchorOnly then [c.anchorFragment] else c.visible)
    && b.digest == env.bundleDigest(c, b.fragments)
  }

  /** The event keeps its ID, kind and stripped proposition, and has one bundle for each of its
      candidates, in order. */
  ghost predicate Enriches(env: Env, candidates: seq<Candidate>, anchorOnly: bool, input: EventInput, e: RefEvent) {
    && e.id == input.id && e.kind == input.kind && e.proposition == env.strip(input.proposition) && e.id != ""
    && |e.bundles| == |input.candidateIds| > 0
    && forall k | 0 <= k < |e.bundles| ::
         && input.candidateIds[k] in ById(candidates)
         && Bundles(env, ById(candidates)[input.candidateIds[k]], anchorOnly, e.bundles[k])
  }

  /** Each bundle is some candidate's. */
  lemma BundleHasCandidate(env: Env, candidates: seq<Candidate>, anchorOnly: bool, input: EventInput, e: RefEvent,
                           b: Bundle) returns (c: Candidate)
    requires Enriches(env, candidates, anchorOnly, input, e) && b in e.bundles
    ensures c in candidates && b == BundleOf(env, c, anchorOnly)
  {
    var k :| 0 <= k < |e.bundles| && e.bundles[k] == b;
    ByIdNames(candidates);
    c := ById(candidates)[input.candidateIds[k]];
  }

  function Fragments(bundles: seq<Bundle>): seq<seq<string>> {
    seq(|bundles|, i requires 0 <= i < |bundles| => bundles[i].fragments)
  }

  /** The events as the hitting-set search sees them. */
  function Searched(events: seq<RefEvent>): seq<HittingSet.Event> {
    seq(|events|, i requires 0 <= i < |events| => HittingSet.Event(events[i].id, Fragments(events[i].bundles)))
  }

  /** A candidate of those IDs shows one of the event's bundles. */
  ghost predicate ShownBy(candidates: seq<Candidate>, ids: set<string>, e: RefEvent) {
    exists c, k :: c in candidates && c.id in ids && k in e.bundles && InView(c, k.fragments)
  }

  ghost predicate ShowsAll(candidates: seq<Candidate>, ids: set<string>, es: seq<RefEvent>) {
    forall e | e in es :: ShownBy(candidates, ids, e)
  }

  /** The IDs show every event, and no fewer IDs do. */
  ghost predicate SmallestFor(candidates: seq<Candidate>, es: seq<RefEvent>, ids: seq<string>) {
    && Distinct(ids) && ShowsAll(candidates, Elements(ids), es)
    && forall other | ShowsAll(candidates, other, es) :: |ids| <= |other|
  }

  ghost predicate ReferenceOk(env: Env, candidates: seq<Candidate>, anchorOnly: bool, inputs: seq<EventInput>,
                              reference: Reference) {
    && |reference.events| == |inputs|
    && (forall i | 0 <= i < |inputs| :: Enriches(env, candidates, anchorOnly, inputs[i], reference.events[i]))
    && (forall i, j | 0 <= i < j < |inputs| :: reference.events[i].id != reference.events[j].id)
    && SmallestFor(candidates, reference.events, reference.minimum)
  }

  lemma SearchedShows(candidates: seq<Candidate>, ids: set<string>, es: seq<RefEvent>, i: nat)
    requires i < |es|
    ensures HittingSet.ExposedBy(candidates, ids, Searched(es)[i]) <==> ShownBy(candidates, ids, es[i])
  {
    var e, bundles := Searched(es)[i], es[i].bundles;
    if HittingSet.ExposedBy(candidates, ids, e) {
      var c :| c in candidates && c.id in ids && HittingSet.Exposes(c, e);
      var b :| b in e.bundles && InView(c, b);
      var m :| 0 <= m < |bundles| && Fragments(bundles)[m] == b;
      assert bundles[m] in bundles;
    }
    if ShownBy(candidates, ids, es[i]) {
      var c, k :| c in candidates && c.id in ids && k in bundles && InView(c, k.fragments);
      var m :| 0 <= m < |bundles| && bundles[m] == k;
      assert Fragments(bundles)[m] in e.bundles;
      assert HittingSet.Exposes(c, e);
    }
  }

  lemma SearchedMeans(candidates: seq<Candidate>, ids: set<string>, es: seq<RefEvent>)
    ensures HittingSet.ExposesAll(candidates, ids, Searched(es)) <==> ShowsAll(candidates, ids, es)
  {
    forall i | 0 <= i < |es|
      ensures HittingSet.ExposedBy(candidates, ids, Searched(es)[i]) <==> ShownBy(candidates, ids, es[i])
    {
      SearchedShows(candidates, ids, es, i);
    }
    forall e | e in es ensures HittingSet.ExposesAll(candidates, ids, Searched(es)) ==> ShownBy(candidates, ids, e) {
      var i :| 0 <= i < |es| && es[i] == e;
      assert Searched(es)[i] in Searched(es);
    }
    forall s | s in Searched(es)
      ensures ShowsAll(candidates, ids, es) ==> HittingSet.ExposedBy(candidates, ids, s)
    {
      var i :| 0 <= i < |es| && Searched(es)[i] == s;
      assert es[i] in es;
    }
  }

  /** `_event_input`: every event complete, and no ID twice. */
  ghost predicate InputsOk(env: Env, inputs: seq<EventInput>) {
    && (forall i | 0 <= i < |inputs| :: InputOk(env, inputs[i]))
    && (forall i, j | 0 <= i < j < |inputs| :: inputs[i].id != inputs[j].id)
  }

  method CheckInputs(env: Env, inputs: seq<EventInput>) returns (ok: bool)
    ensures ok <==> InputsOk(env, inputs)
  {
    var ids: set<string> := {};
    for i := 0 to |inputs|
      invariant forall j | 0 <= j < i :: InputOk(env, inputs[j])
      invariant forall j, k | 0 <= j < k < i :: inputs[j].id != inputs[k].id
      invariant forall id :: id in ids <==> exists j :: 0 <= j < i && inputs[j].id == id
    {
      var e := inputs[i];
      if e.id == "" || e.id in ids || env.blank(e.proposition) {
        return false;
      }
      if e.candidateIds == [] || |Elements(e.candidateIds)| != |e.candidateIds| || "" in e.candidateIds {
        DistinctExactly(e.candidateIds);
        return false;
      }
      DistinctExactly(e.candidateIds);
      ids := ids + {inputs[i].id};
    }
    ok := true;
  }

  ghost predicate InManifest(candidates: seq<Candidate>, id: string) {
    exists c :: c in candidates && c.id == id
  }

  /** Every candidate ID of the events is in the manifest. */
  ghost predicate AllKnown(candidates: seq<Candidate>, inputs: seq<EventInput>) {
    forall input, id | input in inputs && id in input.candidateIds :: InManifest(candidates, id)
  }

  ghost predicate Findable(candidates: seq<Candidate>, input: EventInput) {
    forall id | id in input.candidateIds :: id in ById(candidates)
  }

  method CheckKnown(candidates: seq<Candidate>, inputs: seq<EventInput>) returns (ok: bool)
    ensures ok <==> AllKnown(candidates, inputs)
    ensures ok ==> forall i | 0 <= i < |inputs| :: Findable(candidates, inputs[i])
  {
    var byId := ById(candidates);
    ByIdNames(candidates);
    assert forall id :: id in byId <==> InManifest(candidates, id);
    ok := forall input, id | input in inputs && id in input.candidateIds :: id in byId;
  }

  method EnrichEvent(env: Env, candidates: seq<Candidate>, anchorOnly: bool, input: EventInput) returns (e: RefEvent)
    requires InputOk(env, input) && Findable(candidates, input)
    ensures Enriches(env, candidates, anchorOnly, input, e)
  {
    var byId := ById(candidates);
    var bundles: seq<Bundle> := [];
    for k := 0 to |input.candidateIds|
      invariant |bundles| == k
      invariant forall j | 0 <= j < k ::
        input.candidateIds[j] in byId && bundles[j] == BundleOf(env, byId[input.candidateIds[j]], anchorOnly)
    {
      bundles := bundles + [BundleOf(env, byId[input.candidateIds[k]], anchorOnly)];
    }
    e := RefEvent(input.id, input.kind, env.strip(input.proposition), bundles);
  }

  lemma OwnCandidateShows(env: Env, candidates: seq<Candidate>, anchorOnly: bool, input: EventInput, e: RefEvent)
    requires forall c | c in candidates :: c.anchorFragment in c.visible
    requires Enriches(env, candidates, anchorOnly, input, e)
    ensures HittingSet.Exposed(candidates, HittingSet.Event(e.id, Fragments(e.bundles)))
  {
    assert e.bundles[0] in e.bundles;
    var c := BundleHasCandidate(env, candidates, anchorOnly, input, e, e.bundles[0]);
    assert Fragments(e.bundles)[0] in Fragments(e.bundles) && InView(c, e.bundles[0].fragments);
    assert HittingSet.Exposes(c, HittingSet.Event(e.id, Fragments(e.bundles)));
  }

  lemma SearchedSmallest(candidates: seq<Candidate>, es: seq<RefEvent>, ids: seq<string>)
    requires HittingSet.Smallest(candidates, Searched(es), ids)
    ensures SmallestFor(candidates, es, ids)
  {
    SearchedMeans(candidates, Elements(ids), es);
    forall other | ShowsAll(candidates, other, es) ensures |ids| <= |other| {
      SearchedMeans(candidates, other, es);
    }
  }

  ghost predicate EnrichesAll(env: Env, candidates: seq<Candidate>, anchorOnly: bool, inputs: seq<EventInput>,
                              events: seq<RefEvent>)
  {
    |events| == |inputs| && forall i | 0 <= i < |inputs| :: Enriches(env, candidates, anchorOnly, inputs[i], events[i])
  }

  /** The loop that enriches the events. */
  method EnrichAll(env: Env, candidates: seq<Candidate>, anchorOnly: bool, inputs: seq<EventInput>)
    returns (events: seq<RefEvent>)
    requires InputsOk(env, inputs) && forall i | 0 <= i < |inputs| :: Findable(candidates, inputs[i])
    ensures EnrichesAll(env, candidates, anchorOnly, inputs, events)
  {
    events := [];
    for i := 0 to |inputs|
      invariant |events| == i
      invariant forall j | 0 <= j < i :: Enriches(env, candidates, anchorOnly, inputs[j], events[j])
    {
      var enriched := EnrichEvent(env, candidates, anchorOnly, inputs[i]);
      events := events + [enriched];
    }
  }

  /** The published minimum. The search never refuses. */
  method PublishedMinimum(env: Env, candidates: seq<Candidate>, anchorOnly: bool, ghost inputs: seq<EventInput>,
                          events: seq<RefEvent>)
    returns (minimum: seq<string>)
    requires forall c | c in candidates :: c.anchorFragment in c.visible
    requires EnrichesAll(env, candidates, anchorOnly, inputs, events)
    ensures SmallestFor(candidates, events, minimum)
  {
    forall i | 0 <= i < |inputs| ensures HittingSet.Exposed(candidates, Searched(events)[i]) {
      OwnCandidateShows(env, candidates, anchorOnly, inputs[i], events[i]);
    }
    var found := HittingSet.MinimumHittingSet(Searched(events), candidates);
    if found.Refused? {
      assert false;
    }
    minimum := found.value;
    SearchedSmallest(candidates, events, minimum);
  }

  /** `create_reference`: events, section IDs and the published minimum. The search never refuses:
      every bundle is shown by the candidate it came from. */
  method CreateReference(env: Env, inputs: seq<EventInput>, candidates: seq<Candidate>, anchorOnly: bool,
                         digest: string, view: string, turns: nat, sectionSize: int)
    returns (r: Result<Reference, LedgerError>)
    requires forall c | c in candidates :: c.anchorFragment in c.visible
    ensures r.Ok? <==> InputsOk(env, inputs) && AllKnown(candidates, inputs) && sectionSize >= 1
    ensures !InputsOk(env, inputs) ==> r == Refused(BadEvent)
    ensures InputsOk(env, inputs) && !AllKnown(candidates, inputs) ==> r == Refused(UnknownCandidate)
    ensures InputsOk(env, inputs) && AllKnown(candidates, inputs) && sectionSize < 1 ==> r == Refused(BadSectionSize)
    ensures r.Ok? ==> ReferenceOk(env, candidates, anchorOnly, inputs, r.value)
    ensures r.Ok? ==> r.value.digest == digest && r.value.view == view
    ensures r.Ok? ==>
      r.value.sections == Sections.SectionIds(Sections.SectionsFrom(candidates, 0, turns, sectionSize))
  {
    var ok := CheckInputs(env, inputs);
    if !ok {
      return Refused(BadEvent);
    }
    var known := CheckKnown(candidates, inputs);
    if !known {
      return Refused(UnknownCandidate);
    }
    var events := EnrichAll(env, candidates, anchorOnly, inputs);
    var sections := Sections.BuildSections(turns, candidates, sectionSize);
    if sections.None? {
      return Refused(BadSectionSize);
    }
    var minimum := PublishedMinimum(env, candidates, anchorOnly, inputs, events);
    r := Ok(Reference(digest, view, events, Sections.SectionIds(sections.value), minimum));
  }

  // ---- The review ----

  ghost predicate Retains(d: EventDecision) {
    d.disposition != REJECT
  }

  ghost predicate Selectable(e: RefEvent, digest: string) {
    exists b | b in e.bundles :: b.digest == digest
  }

  /** One decision about one event. */
  ghost predicate DecisionOk(env: Env, d: EventDecision, e: RefEvent) {
    && d.id == e.id && !env.blank(d.proposition)
    && Distinct(d.selected) && (forall s | s in d.selected :: Selectable(e, s))
    && (Retains(d) ==> d.selected != [])
    && (d.disposition == ACCEPT ==> d.kind == e.kind && d.proposition == e.proposition)
    && (d.disposition != ACCEPT ==> !env.blank(d.ambiguity))
  }

  ghost predicate SectionOk(env: Env, d: SectionDecision, id: string) {
    && d.id == id && d.reviewed
    && (if d.resolution == NO_MISSING_EVENT then d.notes == "" else !env.blank(d.notes))
  }

  ghost predicate DistinctPropositions(env: Env, ds: seq<EventDecision>, n: nat)
    requires n <= |ds|
  {
    forall i, j | 0 <= i < j < n && Retains(ds[i]) && Retains(ds[j]) ::
      env.normalize(ds[i].proposition) != env.normalize(ds[j].proposition)
  }

  ghost predicate Bound(registration: string, ds: Decisions, reference: Reference) {
    ds.reference == reference.digest && ds.registration == registration
  }

  /** One decision for each event, in order. */
  ghost predicate CoversEvents(ds: Decisions, reference: Reference) {
    && |ds.events| == |reference.events|
    && forall i | 0 <= i < |ds.events| :: ds.events[i].id == reference.events[i].id
  }

  /** What a valid review is. */
  ghost predicate ReviewOk(env: Env, registration: string, ds: Decisions, reference: Reference) {
    && Bound(registration, ds, reference) && CoversEvents(ds, reference)
    && (forall i | 0 <= i < |ds.events| :: DecisionOk(env, ds.events[i], reference.events[i]))
    && DistinctPropositions(env, ds.events, |ds.events|)
    && |ds.sections| == |reference.sections|
    && (forall i | 0 <= i < |ds.sections| :: SectionOk(env, ds.sections[i], reference.sections[i]))
  }

  /** The loop that fills `retained`. */
  method CheckPropositions(env: Env, ds: seq<EventDecision>) returns (distinct: bool)
    ensures distinct <==> DistinctPropositions(env, ds, |ds|)
  {
    var retained: map<string, string> := map[];
    for i := 0 to |ds|
      invariant DistinctPropositions(env, ds, i)
      invariant forall p :: p in retained <==>
        exists j :: 0 <= j < i && Retains(ds[j]) && env.normalize(ds[j].proposition) == p
    {
      if ds[i].disposition in {ACCEPT, EDIT} {
        var normalized := env.normalize(ds[i].proposition);
        if normalized in retained {
          return false;
        }
        retained := retained[normalized := ds[i].id];
      }
    }
    distinct := true;
  }

  /** The checks on one event's decision. */
  method CheckDecision(env: Env, d: EventDecision, e: RefEvent) returns (complete: bool)
    requires d.id == e.id
    ensures complete <==> DecisionOk(env, d, e)
  {
    var available := set b | b in e.bundles :: b.digest;
    DistinctExactly(d.selected);
    complete := !env.blank(d.proposition)
      && |Elements(d.selected)| == |d.selected| && (forall s | s in d.selected :: s in available)
      && !(d.disposition in {ACCEPT, EDIT} && d.selected == [])
      && !(d.disposition == ACCEPT && (d.kind != e.kind || d.proposition != e.proposition))
      && !(d.disposition in {EDIT, REJECT} && env.blank(d.ambiguity));
  }

  /** `validate_review_decisions`. */
  method ValidateReview(env: Env, registration: string, ds: Decisions, reference: Reference)
    returns (refusal: Option<LedgerError>)
    ensures refusal.None? <==> ReviewOk(env, registration, ds, reference)
    ensures refusal == Some(WrongInputs) <==> !Bound(registration, ds, reference)
    ensures refusal == Some(WrongCoverage) <==> Bound(registration, ds, reference) && !CoversEvents(ds, reference)
    ensures refusal == Some(DuplicateProposition) ==> !DistinctPropositions(env, ds.events, |ds.events|)
  {
    if ds.reference != reference.digest || ds.registration != registration {
      return Some(WrongInputs);
    }
    if |ds.events| != |reference.events|
      || exists i :: 0 <= i < |ds.events| && ds.events[i].id != reference.events[i].id
    {
      return Some(WrongCoverage);
    }
    for i := 0 to |ds.events|
      invariant forall j | 0 <= j < i :: DecisionOk(env, ds.events[j], reference.events[j])
    {
      var complete := CheckDecision(env, ds.events[i], reference.events[i]);
      if !complete {
        return Some(BadDecision);
      }
    }
    var distinct := CheckPropositions(env, ds.events);
    if !distinct {
      return Some(DuplicateProposition);
    }
    if |ds.sections| != |reference.sections| {
      return Some(BadSections);
    }
    for i := 0 to |ds.sections|
      invariant forall j | 0 <= j < i :: SectionOk(env, ds.sections[j], reference.sections[j])
    {
      var d := ds.sections[i];
      if d.id != reference.sections[i] || !d.reviewed
        || (d.resolution == NO_MISSING_EVENT && d.notes != "")
        || (d.resolution == MISSING_EVENT_REPORTED && env.blank(d.notes))
      {
        return Some(BadSections);
      }
    }
    refusal := None;
  }

  // ---- Promotion ----

  function Selected(bundles: seq<Bundle>, selected: seq<string>): seq<seq<string>> {
    if bundles == [] then []
    else
      var n := |bundles| - 1;
      Selected(bundles[..n], selected) + if bundles[n].digest in selected then [bundles[n].fragments] else []
  }

  /** The places of the selected bundles. */
  ghost function SelectedPlaces(bundles: seq<Bundle>, selected: seq<string>): set<nat> {
    set i: nat | i < |bundles| && bundles[i].digest in selected
  }

  /** The bundles at the places `at`, which are those of the selected ones, in rising order. */
  ghost predicate Shown(bundles: seq<Bundle>, selected: seq<string>, at: seq<nat>, shown: seq<seq<string>>) {
    && Rising(at) && Elements(at) == SelectedPlaces(bundles, selected) && |shown| == |at|
    && forall j | 0 <= j < |at| :: at[j] < |bundles| && shown[j] == bundles[at[j]].fragments
  }

  lemma {:induction false} SelectedAreShown(bundles: seq<Bundle>, selected: seq<string>) returns (at: seq<nat>)
    ensures Shown(bundles, selected, at, Selected(bundles, selected))
  {
    if bundles == [] {
      at := [];
    } else {
      var n := |bundles| - 1;
      at := SelectedAreShown(bundles[..n], selected);
      var before := SelectedPlaces(bundles[..n], selected);
      assert SelectedPlaces(bundles, selected) == before + if bundles[n].digest in selected then {n} else {};
      if bundles[n].digest in selected {
        PlacesNext(at, n);
        at := at + [n];
      } else {
        AppendNothing(Selected(bundles[..n], selected));
      }
    }
  }

  /** What a ledger event keeps of a retained decision: its ID, kind and proposition as reviewed,
      and exactly the event's selected bundles, in the event's order. */
  ghost predicate Records(env: Env, d: EventDecision, e: RefEvent, l: LedgerEvent) {
    && l.id == d.id && l.kind == d.kind
    && l.propositionDigest == env.textDigest(env.normalize(d.proposition))
    && exists at :: Shown(e.bundles, d.selected, at, l.bundles)
  }

  /** The places of the decisions that reject nothing, below `n`. */
  ghost function RetainedPlaces(ds: seq<EventDecision>, n: nat): set<nat>
    requires n <= |ds|
  {
    set i: nat | i < n && ds[i].disposition != REJECT
  }

  /** The ledger events record the retained decisions below `n`, at the places `at`. */
  ghost predicate RecordsAt(env: Env, ds: seq<EventDecision>, es: seq<RefEvent>, n: nat, at: seq<nat>,
                            events: seq<LedgerEvent>)
    requires n <= |ds| == |es|
  {
    && Rising(at) && Elements(at) == RetainedPlaces(ds, n) && |events| == |at|
    && forall j | 0 <= j < |at| :: at[j] < n && Records(env, ds[at[j]], es[at[j]], events[j])
  }

  /** One ledger event for each retained decision, in review order, and none for another. */
  ghost predicate RecordsAll(env: Env, ds: seq<EventDecision>, es: seq<RefEvent>, events: seq<LedgerEvent>) {
    |ds| == |es| && exists at :: RecordsAt(env, ds, es, |ds|, at, events)
  }

  function Promote(env: Env, d: EventDecision, e: RefEvent): LedgerEvent {
    LedgerEvent(d.id, d.kind, env.textDigest(env.normalize(d.proposition)), Selected(e.bundles, d.selected))
  }

  /** The retained events among the first `n`, in review order. */
  ghost function Promoted(env: Env, ds: seq<EventDecision>, es: seq<RefEvent>, n: nat): seq<LedgerEvent>
    requires n <= |ds| == |es|
  {
    if n == 0 then []
    else
      Promoted(env, ds, es, n - 1) + if Retains(ds[n - 1]) then [Promote(env, ds[n - 1], es[n - 1])] else []
  }

  ghost function PromotedBase(env: Env, registration: string, ds: Decisions, reference: Reference): Base
    requires |ds.events| == |reference.events|
  {
    Base(registration, reference.view, reference.digest, env.decisionsDigest(ds),
         Promoted(env, ds.events, reference.events, |ds.events|))
  }

  ghost predicate SomeRetained(ds: seq<EventDecision>) {
    exists i :: 0 <= i < |ds| && Retains(ds[i])
  }

  ghost predicate NothingMissing(ds: Decisions) {
    forall s | s in ds.sections :: s.resolution == NO_MISSING_EVENT
  }

  lemma {:induction false} NoneRetained(env: Env, ds: seq<EventDecision>, es: seq<RefEvent>, n: nat)
    requires n <= |ds| == |es|
    ensures Promoted(env, ds, es, n) == [] <==> forall i | 0 <= i < n :: !Retains(ds[i])
  {
    if n > 0 {
      NoneRetained(env, ds, es, n - 1);
    }
  }

  lemma {:induction false} PromotedRecords(env: Env, ds: seq<EventDecision>, es: seq<RefEvent>, n: nat)
    returns (at: seq<nat>)
    requires n <= |ds| == |es|
    ensures RecordsAt(env, ds, es, n, at, Promoted(env, ds, es, n))
  {
    if n == 0 {
      at := [];
    } else {
      at := PromotedRecords(env, ds, es, n - 1);
      var before, retains := RetainedPlaces(ds, n - 1), ds[n - 1].disposition != REJECT;
      assert RetainedPlaces(ds, n) == before + if retains then {n - 1} else {};
      if retains {
        var shown := SelectedAreShown(es[n - 1].bundles, ds[n - 1].selected);
        PlacesNext(at, n - 1);
        at := at + [n - 1];
      } else {
        AppendNothing(Promoted(env, ds, es, n - 1));
      }
    }
  }

  /** The loop over the reviewed events. */
  method PromoteRetained(env: Env, ds: seq<EventDecision>, es: seq<RefEvent>) returns (events: seq<LedgerEvent>)
    requires |ds| == |es|
    ensures events == Promoted(env, ds, es, |ds|)
    ensures events != [] <==> SomeRetained(ds)
  {
    events := [];
    for i := 0 to |ds|
      invariant events == Promoted(env, ds, es, i)
    {
      if ds[i].disposition in {ACCEPT, EDIT} {
        events := events + [Promote(env, ds[i], es[i])];
      } else {
        AppendNothing(events);
      }
    }
    NoneRetained(env, ds, es, |ds|);
  }

  /** `build_runner_ledger`. */
  method BuildRunnerLedger(env: Env, registration: string, ds: Decisions, reference: Reference)
    returns (r: Result<Ledger, LedgerError>)
    requires forall i, j | 0 <= i < j < |reference.events| :: reference.events[i].id != reference.events[j].id
    ensures r.Ok? <==>
      ReviewOk(env, registration, ds, reference) && NothingMissing(ds) && SomeRetained(ds.events)
    ensures r.Ok? ==>
      var base := PromotedBase(env, registration, ds, reference); r.value == Ledger(base, env.ledgerDigest(base))
    ensures r.Ok? ==> RecordsAll(env, ds.events, reference.events, r.value.base.events)
  {
    var refusal := ValidateReview(env, registration, ds, reference);
    if refusal.Some? {
      return Refused(refusal.value);
    }
    for i := 0 to |ds.sections|
      invariant forall j | 0 <= j < i :: ds.sections[j].resolution == NO_MISSING_EVENT
    {
      if ds.sections[i].resolution == MISSING_EVENT_REPORTED {
        assert ds.sections[i] in ds.sections;
        return Refused(MissingEvents);
      }
    }
    var events := PromoteRetained(env, ds.events, reference.events);
    if events == [] {
      return Refused(NothingRetained);
    }
    ghost var at := PromotedRecords(env, ds.events, reference.events, |ds.events|);
    var base := Base(registration, reference.view, reference.digest, env.decisionsDigest(ds), events);
    r := Ok(Ledger(base, env.ledgerDigest(base)));
  }

  // ---- What the runner checks again ----

  ghost predicate Known(candidates: seq<Candidate>, fragment: string) {
    exists c :: c in candidates && fragment in c.visible
  }

  ghost predicate BundleShape(candidates: seq<Candidate>, bundle: seq<string>) {
    && 1 <= |bundle| <= 3 && Distinct(bundle)
    && forall f | f in bundle :: f != "" && Known(candidates, f)
  }

  ghost predicate EventShape(env: Env, candidates: seq<Candidate>, e: LedgerEvent) {
    && !env.blank(e.id) && IsSha(e.propositionDigest) && e.bundles != []
    && forall b | b in e.bundles :: BundleShape(candidates, b)
  }

  /** What the runner asks of a ledger. */
  ghost predicate LedgerShape(env: Env, registration: string, view: string, candidates: seq<Candidate>, l: Ledger) {
    && l.base.registration == registration && l.base.view == view
    && IsSha(l.base.reference) && IsSha(l.base.decisions) && IsSha(l.digest) && l.digest == env.ledgerDigest(l.base)
    && l.base.events != []
    && (forall e | e in l.base.events :: EventShape(env, candidates, e))
    && (forall i, j | 0 <= i < j < |l.base.events| :: l.base.events[i].id != l.base.events[j].id)
  }

  /** The checks on one bundle. */
  method CheckBundle(candidates: seq<Candidate>, bundle: seq<string>) returns (ok: bool)
    ensures ok <==> BundleShape(candidates, bundle)
  {
    DistinctExactly(bundle);
    ok := 1 <= |bundle| <= 3 && "" !in bundle && |Elements(bundle)| == |bundle|
      && forall f | f in bundle :: exists c | c in candidates :: f in c.visible;
  }

  /** The checks on one event. */
  method CheckEvent(env: Env, candidates: seq<Candidate>, e: LedgerEvent) returns (ok: bool)
    ensures ok <==> EventShape(env, candidates, e)
  {
    var digest := CheckSha(e.propositionDigest);
    if env.blank(e.id) || !digest || e.bundles == [] {
      return false;
    }
    for m := 0 to |e.bundles|
      invariant forall j | 0 <= j < m :: BundleShape(candidates, e.bundles[j])
    {
      var valid := CheckBundle(candidates, e.bundles[m]);
      if !valid {
        assert e.bundles[m] in e.bundles;
        return false;
      }
    }
    ok := true;
  }

  /** The loop over the events. */
  method CheckEvents(env: Env, candidates: seq<Candidate>, events: seq<LedgerEvent>) returns (ok: bool)
    ensures ok <==> forall e | e in events :: EventShape(env, candidates, e)
  {
    for k := 0 to |events|
      invariant forall j | 0 <= j < k :: EventShape(env, candidates, events[j])
    {
      var valid := CheckEvent(env, candidates, events[k]);
      if !valid {
        assert events[k] in events;
        return false;
      }
    }
    ok := true;
  }

  method CheckIds(events: seq<LedgerEvent>) returns (ok: bool)
    ensures ok <==> forall i, j | 0 <= i < j < |events| :: events[i].id != events[j].id
  {
    var ids := Each((e: LedgerEvent) => e.id, events);
    DistinctExactly(ids);
    ok := |Elements(ids)| == |ids|;
    assert forall i | 0 <= i < |events| :: ids[i] == events[i].id;
  }

  /** `_validate_ledger_shape`. */
  method ValidateLedgerShape(env: Env, registration: string, view: string, candidates: seq<Candidate>, l: Ledger)
    returns (ok: bool)
    ensures ok <==> LedgerShape(env, registration, view, candidates, l)
  {
    var b := l.base;
    var reference := CheckSha(b.reference);
    var decisions := CheckSha(b.decisions);
    var digest := CheckSha(l.digest);
    if b.registration != registration || b.view != view || !reference || !decisions || !digest
      || l.digest != env.ledgerDigest(b) || b.events == []
    {
      return false;
    }
    var shaped := CheckEvents(env, candidates, b.events);
    var distinct := CheckIds(b.events);
    ok := shaped && distinct;
  }

  // ---- Promotion keeps the shape ----

  lemma {:induction false} SelectedBundles(bundles: seq<Bundle>, selected: seq<string>)
    ensures forall b | b in Selected(bundles, selected) :: exists k :: k in bundles && k.fragments == b
    ensures forall k | k in bundles && k.digest in selected :: k.fragments in Selected(bundles, selected)
  {
    if bundles == [] {
    } else {
      var n := |bundles| - 1;
      SelectedBundles(bundles[..n], selected);
      assert forall k | k in bundles :: k in bundles[..n] || k == bundles[n];
    }
  }

  lemma OwnBundleShape(env: Env, candidates: seq<Candidate>, anchorOnly: bool, window: nat, c: Candidate)
    requires ManifestOk(candidates, window) && (anchorOnly || window == 1) && c in candidates
    ensures BundleShape(candidates, BundleOf(env, c, anchorOnly).fragments)
    ensures InView(c, BundleOf(env, c, anchorOnly).fragments)
  {
    var fragments := BundleOf(env, c, anchorOnly).fragments;
    forall f | f in fragments ensures f != "" && Known(candidates, f) {
      assert f in c.visible;
    }
  }

  lemma PromotedBundles(env: Env, candidates: seq<Candidate>, anchorOnly: bool, window: nat, e: RefEvent,
                        selected: seq<string>)
    requires ManifestOk(candidates, window) && (anchorOnly || window == 1)
    requires forall b | b in e.bundles :: exists c :: c in candidates && b == BundleOf(env, c, anchorOnly)
    ensures forall b | b in Selected(e.bundles, selected) ::
      BundleShape(candidates, b) && exists c :: c in candidates && InView(c, b)
  {
    SelectedBundles(e.bundles, selected);
    forall b | b in Selected(e.bundles, selected)
      ensures BundleShape(candidates, b) && exists c :: c in candidates && InView(c, b)
    {
      var k :| k in e.bundles && k.fragments == b;
      var c :| c in candidates && k == BundleOf(env, c, anchorOnly);
      OwnBundleShape(env, candidates, anchorOnly, window, c);
    }
  }

  lemma SomethingSelected(env: Env, d: EventDecision, e: RefEvent)
    requires DecisionOk(env, d, e) && Retains(d)
    ensures Selected(e.bundles, d.selected) != []
  {
    SelectedBundles(e.bundles, d.selected);
    assert d.selected[0] in d.selected;
    var first :| first in e.bundles && first.digest == d.selected[0];
    assert first.fragments in Selected(e.bundles, d.selected);
  }

  /** A promoted event is well shaped exactly when its ID is more than whitespace. The input
      check of the reference asks only for a non-empty ID. */
  lemma PromotedShape(env: Env, candidates: seq<Candidate>, anchorOnly: bool, window: nat, input: EventInput,
                      d: EventDecision, e: RefEvent)
    requires Digests(env) && ManifestOk(candidates, window) && (anchorOnly || window == 1)
    requires Enriches(env, candidates, anchorOnly, input, e) && DecisionOk(env, d, e) && Retains(d)
    ensures EventShape(env, candidates, Promote(env, d, e)) <==> !env.blank(d.id)
    ensures forall b | b in Promote(env, d, e).bundles :: exists c :: c in candidates && InView(c, b)
  {
    forall b | b in e.bundles ensures exists c :: c in candidates && b == BundleOf(env, c, anchorOnly) {
      var c := BundleHasCandidate(env, candidates, anchorOnly, input, e, b);
    }
    PromotedBundles(env, candidates, anchorOnly, window, e, d.selected);
    SomethingSelected(env, d, e);
  }

  /** Which retained decision each ledger event comes from. */
  lemma {:induction false} PromotedFrom(env: Env, ds: seq<EventDecision>, es: seq<RefEvent>, n: nat, k: nat)
    returns (i: nat)
    requires n <= |ds| == |es| && k < |Promoted(env, ds, es, n)|
    ensures i < n && Retains(ds[i]) && Promoted(env, ds, es, n)[k] == Promote(env, ds[i], es[i])
    ensures k == |Promoted(env, ds, es, i)|
  {
    var before := Promoted(env, ds, es, n - 1);
    if k < |before| {
      i := PromotedFrom(env, ds, es, n - 1, k);
    } else {
      i := n - 1;
    }
  }

  lemma {:induction false} PromotedGrows(env: Env, ds: seq<EventDecision>, es: seq<RefEvent>, m: nat, n: nat)
    requires m <= n <= |ds| == |es|
    ensures |Promoted(env, ds, es, m)| <= |Promoted(env, ds, es, n)|
    ensures Promoted(env, ds, es, m) == Promoted(env, ds, es, n)[..|Promoted(env, ds, es, m)|]
    ensures m < n && Retains(ds[m]) ==>
      |Promoted(env, ds, es, m)| < |Promoted(env, ds, es, n)|
      && Promoted(env, ds, es, n)[|Promoted(env, ds, es, m)|] == Promote(env, ds[m], es[m])
  {
    if m < n { PromotedGrows(env, ds, es, m, n - 1); }
  }

  /** The context of a promotion in one lane. */
  ghost predicate Promotable(env: Env, registration: string, candidates: seq<Candidate>, anchorOnly: bool, window: nat,
                             inputs: seq<EventInput>, ds: Decisions, reference: Reference) {
    && Digests(env) && IsSha(reference.digest) && ManifestOk(candidates, window) && (anchorOnly || window == 1)
    && ReferenceOk(env, candidates, anchorOnly, inputs, reference) && ReviewOk(env, registration, ds, reference)
  }

  /** The ledger events are the retained ones: same IDs, both ways. */
  lemma RetainedIds(env: Env, ds: seq<EventDecision>, es: seq<RefEvent>)
    requires |ds| == |es|
    ensures forall e | e in Promoted(env, ds, es, |ds|) ::
      exists i :: 0 <= i < |ds| && Retains(ds[i]) && e == Promote(env, ds[i], es[i])
    ensures forall i | 0 <= i < |ds| && Retains(ds[i]) :: Promote(env, ds[i], es[i]) in Promoted(env, ds, es, |ds|)
  {
    var events := Promoted(env, ds, es, |ds|);
    forall e | e in events ensures exists i :: 0 <= i < |ds| && Retains(ds[i]) && e == Promote(env, ds[i], es[i]) {
      var k :| 0 <= k < |events| && events[k] == e;
      var i := PromotedFrom(env, ds, es, |ds|, k);
    }
    forall i | 0 <= i < |ds| && Retains(ds[i]) ensures Promote(env, ds[i], es[i]) in events {
      PromotedGrows(env, ds, es, i, |ds|);
    }
  }

  lemma EventsShaped(env: Env, registration: string, candidates: seq<Candidate>, anchorOnly: bool, window: nat,
                     inputs: seq<EventInput>, ds: Decisions, reference: Reference)
    requires Promotable(env, registration, candidates, anchorOnly, window, inputs, ds, reference)
    ensures var events := Promoted(env, ds.events, reference.events, |ds.events|);
            && (forall e | e in events :: EventShape(env, candidates, e) <==> !env.blank(e.id))
            && AllExposed(candidates, events)
  {
    var es := reference.events;
    var events := Promoted(env, ds.events, es, |ds.events|);
    RetainedIds(env, ds.events, es);
    forall e | e in events
      ensures EventShape(env, candidates, e) <==> !env.blank(e.id)
      ensures forall b | b in e.bundles :: exists c :: c in candidates && InView(c, b)
    {
      var i :| 0 <= i < |ds.events| && Retains(ds.events[i]) && e == Promote(env, ds.events[i], es[i]);
      PromotedShape(env, candidates, anchorOnly, window, inputs[i], ds.events[i], es[i]);
    }
  }

  ghost predicate RetainedNamed(env: Env, ds: seq<EventDecision>) {
    forall i | 0 <= i < |ds| && Retains(ds[i]) :: !env.blank(ds[i].id)
  }

  lemma NamedEvents(env: Env, ds: seq<EventDecision>, es: seq<RefEvent>)
    requires |ds| == |es|
    ensures Promoted(env, ds, es, |ds|) != [] <==> SomeRetained(ds)
    ensures (forall e | e in Promoted(env, ds, es, |ds|) :: !env.blank(e.id)) <==> RetainedNamed(env, ds)
  {
    RetainedIds(env, ds, es);
    var events := Promoted(env, ds, es, |ds|);
    if events != [] { assert events[0] in events; }
    if forall e | e in events :: !env.blank(e.id) {
      forall i | 0 <= i < |ds| && Retains(ds[i]) ensures !env.blank(ds[i].id) {
        assert Promote(env, ds[i], es[i]) in events;
      }
    }
  }

  /** Two ledger events come from two retained decisions, in review order. */
  lemma PromotedPair(env: Env, ds: seq<EventDecision>, es: seq<RefEvent>, k: nat, m: nat) returns (i: nat, j: nat)
    requires |ds| == |es| && k < m < |Promoted(env, ds, es, |ds|)|
    ensures i < j < |ds| && Retains(ds[i]) && Retains(ds[j])
    ensures Promoted(env, ds, es, |ds|)[k] == Promote(env, ds[i], es[i])
    ensures Promoted(env, ds, es, |ds|)[m] == Promote(env, ds[j], es[j])
  {
    i := PromotedFrom(env, ds, es, |ds|, k);
    j := PromotedFrom(env, ds, es, |ds|, m);
    if j <= i {
      PromotedGrows(env, ds, es, j, i);
    }
  }

  lemma PromotedIdsDistinct(env: Env, ds: seq<EventDecision>, es: seq<RefEvent>)
    requires |ds| == |es| && forall i | 0 <= i < |ds| :: ds[i].id == es[i].id
    requires forall i, j | 0 <= i < j < |es| :: es[i].id != es[j].id
    ensures var events := Promoted(env, ds, es, |ds|);
            forall k, m | 0 <= k < m < |events| :: events[k].id != events[m].id
  {
    var events := Promoted(env, ds, es, |ds|);
    forall k, m | 0 <= k < m < |events| ensures events[k].id != events[m].id {
      var i, j := PromotedPair(env, ds, es, k, m);
    }
  }

  /** Promotion keeps validity: the promoted ledger passes the runner's check exactly when it carries
      the runner's own registration, some event was retained, and no retained event has a blank ID.
      It is always fully exposed. */
  lemma PromotionKeepsShape(env: Env, runner: string, registration: string, candidates: seq<Candidate>,
                            anchorOnly: bool, window: nat, inputs: seq<EventInput>, ds: Decisions,
                            reference: Reference)
    requires Promotable(env, registration, candidates, anchorOnly, window, inputs, ds, reference)
    ensures var base := PromotedBase(env, registration, ds, reference);
            && (LedgerShape(env, runner, reference.view, candidates, Ledger(base, env.ledgerDigest(base))) <==>
                 registration == runner && SomeRetained(ds.events) && RetainedNamed(env, ds.events))
            && AllExposed(candidates, base.events)
  {
    EventsShaped(env, registration, candidates, anchorOnly, window, inputs, ds, reference);
    PromotedIdsDistinct(env, ds.events, reference.events);
    NamedEvents(env, ds.events, reference.events);
    var base := PromotedBase(env, registration, ds, reference);
    assert IsSha(base.decisions) && IsSha(env.ledgerDigest(base));
  }

  // ---- The condition is not idle ----

  /** A lone candidate is the reference's minimum. */
  lemma OneCandidate(env: Env, c: Candidate, e: RefEvent)
    requires c.visible == ["f"] && c.anchorFragment == "f"
    requires e == RefEvent(" ", DECISION, "x", [BundleOf(env, c, false)])
    ensures SmallestFor([c], [e], [c.id])
    ensures ById([c]) == map[c.id := c]
  {
    assert [c][..0] == [];
    assert e.bundles[0] in e.bundles && InView(c, e.bundles[0].fragments) && c in [c] && c.id in Elements([c.id]);
    assert ShownBy([c], Elements([c.id]), e);
    forall other | ShowsAll([c], other, [e]) ensures 1 <= |other| {
      assert e in [e] && ShownBy([c], other, e);
      assert c.id in other && |other - {c.id}| == |other| - 1;
    }
  }

  /** The failing input, whatever stripping and hashing do otherwise: one candidate, and one event
      whose ID is a single blank. The event is accepted as input and enriched, its review is valid
      and retains it, and the promoted ledger is refused by the runner. */
  lemma BlankIdRefused(env: Env)
    returns (candidates: seq<Candidate>, inputs: seq<EventInput>, ds: Decisions, reference: Reference)
    requires Digests(env) && env.blank(" ") && env.strip("x") == "x"
    ensures inputs == [EventInput(" ", DECISION, "x", ["c"])] && InputsOk(env, inputs)
    ensures Promotable(env, "r", candidates, false, 1, inputs, ds, reference)
    ensures SomeRetained(ds.events) && NothingMissing(ds)
    ensures var base := PromotedBase(env, "r", ds, reference);
            !LedgerShape(env, "r", reference.view, candidates, Ledger(base, env.ledgerDigest(base)))
  {
    var c := Candidate("c", 0, "f", 0, 0, 1, ["f"]);
    var bundle := BundleOf(env, c, false);
    candidates := [c];
    inputs := [EventInput(" ", DECISION, "x", ["c"])];
    var e := RefEvent(" ", DECISION, "x", [bundle]);
    reference := Reference(env.textDigest(""), "v", [e], [], ["c"]);
    ds := Decisions(reference.digest, "r", [EventDecision(" ", ACCEPT, DECISION, "x", [bundle.digest], "")], []);
    OneCandidate(env, c, e);
    assert Selectable(e, bundle.digest);
    assert DecisionOk(env, ds.events[0], e);
    assert Retains(ds.events[0]) && env.blank(ds.events[0].id);
    PromotionKeepsShape(env, "r", "r", candidates, false, 1, inputs, ds, reference);
  }

  /** The ledger lists the retained events, all of them and in review order, and no two share a
      normalised proposition. */
  lemma PropositionsDistinct(env: Env, registration: string, ds: Decisions, reference: Reference, k: nat, m: nat)
    returns (i: nat, j: nat)
    requires ReviewOk(env, registration, ds, reference)
    requires k < m < |PromotedBase(env, registration, ds, reference).events|
    ensures i < j < |ds.events| && Retains(ds.events[i]) && Retains(ds.events[j])
    ensures var events := PromotedBase(env, registration, ds, reference).events;
            && events[k] == Promote(env, ds.events[i], reference.events[i])
            && events[m] == Promote(env, ds.events[j], reference.events[j])
            && env.normalize(ds.events[i].proposition) != env.normalize(ds.events[j].proposition)
            && forall h | 0 <= h < |ds.events| && Retains(ds.events[h]) ::
                 Promote(env, ds.events[h], reference.events[h]) in events
  {
    i, j := PromotedPair(env, ds.events, reference.events, k, m);
    RetainedIds(env, ds.events, reference.events);
  }

  // ---- The classifier's gate, and the published minimum ----

  /** What recalls a promoted event shows the reference's own event. */
  lemma RecalledShows(env: Env, candidates: seq<Candidate>, d: EventDecision, e: RefEvent, decisions: seq<Decision>)
    requires Recalled(candidates, decisions, Promote(env, d, e))
    ensures ShownBy(candidates, KeptIds(decisions), e)
  {
    var promoted := Promote(env, d, e);
    var id :| RecalledBy(candidates, decisions, promoted, id);
    var c, b :| c in candidates && c.id == id && b in promoted.bundles && InView(c, b);
    KeptIdsMean(decisions);
    SelectedBundles(e.bundles, d.selected);
    var k :| k in e.bundles && k.fragments == b;
  }

  /** When the review rejects nothing, every set of decisions that passes the recall gate keeps at
      least as many candidates as the reference published as its minimum. */
  lemma KeepsAtLeastMinimum(env: Env, registration: string, candidates: seq<Candidate>, anchorOnly: bool,
                            inputs: seq<EventInput>, ds: Decisions, reference: Reference, decisions: seq<Decision>)
    requires ReferenceOk(env, candidates, anchorOnly, inputs, reference) && ReviewOk(env, registration, ds, reference)
    requires forall i | 0 <= i < |ds.events| :: Retains(ds.events[i])
    requires forall e | e in PromotedBase(env, registration, ds, reference).events :: Recalled(candidates, decisions, e)
    ensures |reference.minimum| <= |KeptIds(decisions)| <= Tally(decisions, KEEP)
  {
    var es, kept := reference.events, KeptIds(decisions);
    forall e | e in es ensures ShownBy(candidates, kept, e) {
      var i :| 0 <= i < |es| && es[i] == e;
      var promoted := Promote(env, ds.events[i], e);
      PromotedGrows(env, ds.events, es, i, |ds.events|);
      assert promoted in Promoted(env, ds.events, es, |ds.events|);
      RecalledShows(env, candidates, ds.events[i], e, decisions);
    }
    KeptIdsAreTallied(decisions);
  }
}
