/** Packet exposure and recall of a locked ledger: `event_packet_exposure_report` and
    `event_ledger_report`. */
module Exposure {
  import opened Common
  import opened Evidence

  datatype ExposureError = NotExposed | NotRecalled

  datatype Kind = DECISION | ACTION | PROPOSAL | QUESTION

  datatype LedgerEvent = LedgerEvent(id: string, kind: Kind, propositionDigest: string, bundles: seq<seq<string>>)

  /** `event_packet_exposure_report` does not refuse: some candidate shows each bundle whole. */
  ghost predicate AllExposed(candidates: seq<Candidate>, events: seq<LedgerEvent>) {
    forall e, b | e in events && b in e.bundles :: exists c :: c in candidates && InView(c, b)
  }

  /** The candidate of that ID shows one of the event's bundles, and the last decision about it is
      to keep it. */
  ghost predicate RecalledBy(candidates: seq<Candidate>, decisions: seq<Decision>, e: LedgerEvent, id: string) {
    KeptLast(decisions, id) && exists c, b :: c in candidates && c.id == id && b in e.bundles && InView(c, b)
  }

  /** Some candidate that shows one of the event's bundles was kept. */
  ghost predicate Recalled(candidates: seq<Candidate>, decisions: seq<Decision>, e: LedgerEvent) {
    exists id :: RecalledBy(candidates, decisions, e, id)
  }

  ghost predicate AllRecalled(candidates: seq<Candidate>, decisions: seq<Decision>, events: seq<LedgerEvent>) {
    forall e | e in events :: Recalled(candidates, decisions, e)
  }

  /** The same, on the sets the report computes. */
  lemma RecalledIds(candidates: seq<Candidate>, decisions: seq<Decision>, e: LedgerEvent)
    ensures forall id ::
      id in Options(e.bundles, candidates) * KeptIds(decisions) <==> RecalledBy(candidates, decisions, e, id)
    ensures Recalled(candidates, decisions, e) <==> Options(e.bundles, candidates) * KeptIds(decisions) != {}
  {
    KeptIdsMean(decisions);
    forall id ensures id in Options(e.bundles, candidates) <==>
      exists c, b :: c in candidates && c.id == id && b in e.bundles && InView(c, b)
    {
      forall c, b | c in candidates && b in e.bundles ensures Shows(c, b) <==> InView(c, b) {
        ShowsMeans(c, b);
      }
    }
    if Recalled(candidates, decisions, e) {
      var id :| RecalledBy(candidates, decisions, e, id);
      assert id in Options(e.bundles, candidates) * KeptIds(decisions);
    }
    if Options(e.bundles, candidates) * KeptIds(decisions) != {} {
      var id :| id in Options(e.bundles, candidates) * KeptIds(decisions);
      assert RecalledBy(candidates, decisions, e, id);
    }
  }

  method ReadVerdicts(decisions: seq<Decision>) returns (verdicts: map<string, Verdict>)
    ensures verdicts == LastVerdicts(decisions)
  {
    verdicts := map[];
    for i := 0 to |decisions|
      invariant verdicts == LastVerdicts(decisions[..i])
    {
      assert decisions[..i + 1][..i] == decisions[..i];
      verdicts := verdicts[decisions[i].id := decisions[i].verdict];
    }
    assert decisions[..|decisions|] == decisions;
  }

  /** `event_packet_exposure_report`, as its verdict. */
  method PacketExposure(candidates: seq<Candidate>, events: seq<LedgerEvent>) returns (exposed: bool)
    ensures exposed <==> AllExposed(candidates, events)
  {
    for k := 0 to |events|
      invariant forall j, b | 0 <= j < k && b in events[j].bundles :: exists c :: c in candidates && InView(c, b)
    {
      var bundles := events[k].bundles;
      for m := 0 to |bundles|
        invariant forall j | 0 <= j < m :: exists c :: c in candidates && InView(c, bundles[j])
      {
        var matching := set c | c in candidates && Shows(c, bundles[m]) :: c.id;
        forall c | c in candidates ensures InView(c, bundles[m]) ==> c.id in matching {
          ShowsMeans(c, bundles[m]);
        }
        if matching == {} {
          assert events[k] in events && bundles[m] in events[k].bundles;
          return false;
        }
        var id :| id in matching;
        assert exists c :: c in candidates && InView(c, bundles[m]) by {
          var c :| c in candidates && Shows(c, bundles[m]) && c.id == id;
          ShowsMeans(c, bundles[m]);
        }
      }
    }
    exposed := true;
  }

  /** `event_ledger_report`: for each event the kept candidates that show one of its bundles, or a
      refusal when there is none. */
  method EventLedgerReport(candidates: seq<Candidate>, decisions: seq<Decision>, events: seq<LedgerEvent>)
    returns (r: Result<seq<set<string>>, ExposureError>)
    ensures r.Ok? <==> AllExposed(candidates, events) && AllRecalled(candidates, decisions, events)
    ensures r.Refused? ==> r.error == if AllExposed(candidates, events) then NotRecalled else NotExposed
    ensures r.Ok? ==> |r.value| == |events|
    ensures r.Ok? ==> forall k | 0 <= k < |events| ::
      && r.value[k] == Options(events[k].bundles, candidates) * KeptIds(decisions)
      && forall id :: id in r.value[k] <==> RecalledBy(candidates, decisions, events[k], id)
  {
    var exposed := PacketExposure(candidates, events);
    if !exposed {
      return Refused(NotExposed);
    }
    var verdicts := ReadVerdicts(decisions);
    var rows: seq<set<string>> := [];
    for k := 0 to |events|
      invariant |rows| == k
      invariant forall j | 0 <= j < k :: rows[j] == Options(events[j].bundles, candidates) * KeptIds(decisions)
    {
      var acceptable := Options(events[k].bundles, candidates);
      var kept := set id | id in acceptable && id in verdicts && verdicts[id] == KEEP;
      assert kept == acceptable * KeptIds(decisions);
      rows := rows + [kept];
    }
    for k := 0 to |rows|
      invariant forall j | 0 <= j < k :: Recalled(candidates, decisions, events[j])
      invariant forall j | 0 <= j < k ::
        forall id :: id in rows[j] <==> RecalledBy(candidates, decisions, events[j], id)
    {
      RecalledIds(candidates, decisions, events[k]);
      if rows[k] == {} {
        assert events[k] in events && !Recalled(candidates, decisions, events[k]);
        return Refused(NotRecalled);
      }
    }
    r := Ok(rows);
  }
}
