/** The candidate manifest: what one candidate shows, and which candidates show a bundle. */
module Evidence {
  import opened Common

  datatype Candidate = Candidate(
    id: string,
    ordinal: int,
    anchorFragment: string,
    anchorTurn: int,
    anchorCharStart: int,
    anchorCharEnd: int,
    visible: seq<string>)

  datatype Verdict = KEEP | ABSTAIN

  datatype Decision = Decision(id: string, verdict: Verdict)

  /** `{row["candidate_id"]: row ...}`: a repeated ID keeps its last row. */
  function ById(candidates: seq<Candidate>): map<string, Candidate> {
    if candidates == [] then map[]
    else ById(candidates[..|candidates| - 1])[candidates[|candidates| - 1].id := candidates[|candidates| - 1]]
  }

  lemma {:induction false} ByIdNames(candidates: seq<Candidate>)
    ensures forall id :: id in ById(candidates) <==> exists c :: c in candidates && c.id == id
    ensures forall id | id in ById(candidates) :: ById(candidates)[id].id == id && ById(candidates)[id] in candidates
  {
    if candidates == [] {
    } else {
      var n := |candidates| - 1;
      ByIdNames(candidates[..n]);
      assert candidates == candidates[..n] + [candidates[n]];
    }
  }

  /** A repeated ID stands for its last row. */
  lemma {:induction false} ByIdLast(candidates: seq<Candidate>, i: nat)
    requires i < |candidates| && forall j | i < j < |candidates| :: candidates[j].id != candidates[i].id
    ensures candidates[i].id in ById(candidates) && ById(candidates)[candidates[i].id] == candidates[i]
  {
    if i < |candidates| - 1 {
      ByIdLast(candidates[..|candidates| - 1], i);
    }
  }

  /** The candidate's window holds every fragment of the bundle. */
  predicate Shows(candidate: Candidate, bundle: seq<string>) {
    Elements(bundle) <= Elements(candidate.visible)
  }

  /** The same, fragment by fragment. */
  ghost predicate InView(candidate: Candidate, bundle: seq<string>) {
    forall f | f in bundle :: f in candidate.visible
  }

  lemma ShowsMeans(candidate: Candidate, bundle: seq<string>)
    ensures Shows(candidate, bundle) <==> InView(candidate, bundle)
  {
    assert forall f | f in bundle :: f in Elements(bundle);
  }

  /** IDs of the candidates any one of which exposes one of the bundles. */
  function Options(bundles: seq<seq<string>>, candidates: seq<Candidate>): set<string> {
    set b, c | b in bundles && c in candidates && Shows(c, b) :: c.id
  }

  ghost predicate Hits(options: seq<set<string>>, chosen: set<string>) {
    forall i | 0 <= i < |options| :: options[i] * chosen != {}
  }

  /** How many decisions have a verdict. */
  function Tally(items: seq<Decision>, verdict: Verdict): nat {
    if items == [] then 0
    else Tally(items[..|items| - 1], verdict) + (if items[|items| - 1].verdict == verdict then 1 else 0)
  }

  /** `{row["candidate_id"]: row["verdict"] ...}`: a repeated ID keeps its last verdict. */
  function LastVerdicts(items: seq<Decision>): map<string, Verdict> {
    if items == [] then map[]
    else LastVerdicts(items[..|items| - 1])[items[|items| - 1].id := items[|items| - 1].verdict]
  }

  function KeptIds(items: seq<Decision>): set<string> {
    set id | id in LastVerdicts(items) && LastVerdicts(items)[id] == KEEP
  }

  /** No later decision is about the same candidate. */
  ghost predicate Settled(items: seq<Decision>, i: nat)
    requires i < |items|
  {
    forall j | i < j < |items| :: items[j].id != items[i].id
  }

  /** The last decision about the candidate is to keep it. */
  ghost predicate KeptLast(items: seq<Decision>, id: string) {
    exists i :: 0 <= i < |items| && items[i] == Decision(id, KEEP) && Settled(items, i)
  }

  lemma KeptIdsNext(items: seq<Decision>)
    requires items != []
    ensures var n := |items| - 1;
            KeptIds(items) == if items[n].verdict == KEEP then KeptIds(items[..n]) + {items[n].id}
                              else KeptIds(items[..n]) - {items[n].id}
  {
  }

  lemma KeptLastNext(items: seq<Decision>, id: string)
    requires items != []
    ensures var n := |items| - 1;
            KeptLast(items, id) <==> if items[n].id == id then items[n].verdict == KEEP else KeptLast(items[..n], id)
  {
    var n := |items| - 1;
    if items[n].id == id {
      if items[n].verdict == KEEP {
        assert items[n] == Decision(id, KEEP) && Settled(items, n);
      }
    } else {
      if i :| 0 <= i < |items| && items[i] == Decision(id, KEEP) && Settled(items, i) {
        assert items[..n][i] == Decision(id, KEEP) && Settled(items[..n], i);
      }
      if i :| 0 <= i < n && items[..n][i] == Decision(id, KEEP) && Settled(items[..n], i) {
        assert items[i] == Decision(id, KEEP) && Settled(items, i);
      }
    }
  }

  /** The IDs kept are those whose last decision is KEEP. */
  lemma {:induction false} KeptIdsMean(items: seq<Decision>)
    ensures forall id :: id in KeptIds(items) <==> KeptLast(items, id)
  {
    if items != [] {
      var n := |items| - 1;
      KeptIdsMean(items[..n]);
      KeptIdsNext(items);
      forall id ensures id in KeptIds(items) <==> KeptLast(items, id) {
        KeptLastNext(items, id);
      }
    }
  }

  /** The places of the decisions that have the verdict. */
  ghost function Holding(items: seq<Decision>, verdict: Verdict): set<nat> {
    set i: nat | i < |items| && items[i].verdict == verdict
  }

  /** The tally counts exactly the decisions that have the verdict. */
  lemma {:induction false} TallyCounts(items: seq<Decision>, verdict: Verdict)
    ensures Tally(items, verdict) == |Holding(items, verdict)|
  {
    if items == [] {
      assert Holding(items, verdict) == {};
    } else {
      var n := |items| - 1;
      TallyCounts(items[..n], verdict);
      assert Holding(items, verdict) == Holding(items[..n], verdict)
        + if items[n].verdict == verdict then {n} else {};
    }
  }

  lemma {:induction false} TallyHead(items: seq<Decision>, verdict: Verdict)
    requires items != []
    ensures Tally(items, verdict) == (if items[0].verdict == verdict then 1 else 0) + Tally(items[1..], verdict)
  {
    if |items| > 1 {
      var n := |items| - 1;
      TallyHead(items[..n], verdict);
      assert items[..n][1..] == items[1..][..n - 1];
    }
  }

  /** Without repeated IDs, as many IDs are kept as there are decisions to keep; with them, no more. */
  lemma {:induction false} KeptIdsAreTallied(items: seq<Decision>)
    ensures |KeptIds(items)| <= Tally(items, KEEP)
    ensures (forall i, j | 0 <= i < j < |items| :: items[i].id != items[j].id) ==>
      |KeptIds(items)| == Tally(items, KEEP)
  {
    if items == [] {
      assert KeptIds(items) == {};
    } else {
      var n := |items| - 1;
      KeptIdsAreTallied(items[..n]);
      KeptIdsNext(items);
      if items[n].id in KeptIds(items[..n]) {
        KeptIdsMean(items[..n]);
      }
    }
  }
}
