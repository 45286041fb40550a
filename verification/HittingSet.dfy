/** `_minimum_hitting_set`: the branch-and-bound search behind `minimum_keep_required`. */
module HittingSet {
  import opened Common
  import opened Evidence

  datatype Event = Event(id: string, bundles: seq<seq<string>>)

  datatype Unexposed = Unexposed(eventId: string)

  /** The events below `n` a candidate serves; the source packs this set into bits. */
  function MaskBelow(options: seq<set<string>>, id: string, n: nat): set<nat>
    requires n <= |options|
  {
    set i: nat | i < n && id in options[i]
  }

  function Mask(options: seq<set<string>>, id: string): set<nat> {
    MaskBelow(options, id, |options|)
  }

  predicate IsEvent(options: seq<set<string>>, i: nat) {
    i < |options|
  }

  /** Every event index: the source's `(1 << len(events)) - 1`. */
  function Full(options: seq<set<string>>): set<nat> {
    set i: nat | i < |options| && IsEvent(options, i)
  }

  function IdsBelow(options: seq<set<string>>, n: nat): (r: set<string>)
    requires n <= |options|
    ensures forall i | 0 <= i < n :: options[i] <= r
  {
    if n == 0 then {} else IdsBelow(options, n - 1) + options[n - 1]
  }

  function AllIds(options: seq<set<string>>): set<string> {
    IdsBelow(options, |options|)
  }

  /** `chosen` serves every event outside `covered`. */
  ghost predicate Completes(options: seq<set<string>>, covered: set<nat>, chosen: set<string>) {
    forall i: nat | i < |options| && i !in covered :: options[i] * chosen != {}
  }

  /** No way of finishing from `covered`, having spent `spent`, beats `bound`. */
  ghost predicate NoCheaper(options: seq<set<string>>, covered: set<nat>, spent: nat, bound: nat) {
    forall rest: set<string> | Completes(options, covered, rest) :: spent + |rest| >= bound
  }

  /** `covered` is what `chosen` serves. */
  ghost predicate Serves(options: seq<set<string>>, chosen: seq<string>, covered: set<nat>) {
    && (forall id | id in chosen :: Mask(options, id) <= covered)
    && (forall i | i in covered :: i < |options| && exists id :: id in chosen && id in options[i])
  }

  lemma StillCompletes(options: seq<set<string>>, covered: set<nat>, id: string, rest: set<string>)
    requires Completes(options, covered, rest)
    ensures Completes(options, covered + Mask(options, id), rest - {id})
  {
    forall i: nat | i < |options| && i !in covered + Mask(options, id)
      ensures options[i] * (rest - {id}) != {}
    {
      var other :| other in options[i] * rest;
      assert other in options[i] * (rest - {id});
    }
  }

  /** No completion using one of the first `k` options in `order` beats `bound`. */
  ghost predicate Tried(options: seq<set<string>>, covered: set<nat>, order: seq<string>, k: nat, spent: nat,
                        bound: nat)
    requires k <= |order|
  {
    forall rest: set<string>, j | Completes(options, covered, rest) && 0 <= j < k && order[j] in rest ::
      spent + |rest| >= bound
  }

  lemma TriedOneMore(options: seq<set<string>>, covered: set<nat>, order: seq<string>, k: nat, spent: nat,
                     before: nat, bound: nat)
    requires k < |order| && bound <= before
    requires Tried(options, covered, order, k, spent, before)
    requires NoCheaper(options, covered + Mask(options, order[k]), spent + 1, bound)
    ensures Tried(options, covered, order, k + 1, spent, bound)
  {
    forall rest: set<string> | Completes(options, covered, rest) && order[k] in rest
      ensures spent + |rest| >= bound
    {
      StillCompletes(options, covered, order[k], rest);
    }
  }

  lemma AllTried(options: seq<set<string>>, covered: set<nat>, target: nat, order: seq<string>, spent: nat, bound: nat)
    requires target < |options| && target !in covered && Elements(order) == options[target]
    requires Tried(options, covered, order, |order|, spent, bound)
    ensures NoCheaper(options, covered, spent, bound)
  {
    forall rest: set<string> | Completes(options, covered, rest) ensures spent + |rest| >= bound {
      var id :| id in options[target] * rest;
      assert id in Elements(order);
    }
  }

  /** The heuristic's key: how many of the event's candidates still serve something new. */
  function Branching(options: seq<set<string>>, masks: map<string, set<nat>>, covered: set<nat>, i: nat): nat
    requires i < |options| && options[i] <= masks.Keys
  {
    |set id | id in options[i] && masks[id] - covered != {}|
  }

  /** At an uncovered event every candidate serves something new, so the key never depends on
      the search so far: it is the size of the event's option set. */
  lemma BranchingIsStatic(options: seq<set<string>>, masks: map<string, set<nat>>, covered: set<nat>, i: nat)
    requires i < |options| && options[i] <= masks.Keys && i !in covered
    requires forall id | id in masks :: masks[id] == Mask(options, id)
    ensures Branching(options, masks, covered, i) == |options[i]|
  {
    forall id | id in options[i] ensures masks[id] - covered != {} {
      assert i in masks[id] - covered;
    }
    assert (set id | id in options[i] && masks[id] - covered != {}) == options[i];
  }

  /** Most new events first, then by ID. */
  predicate Preferred(masks: map<string, set<nat>>, covered: set<nat>, a: string, b: string)
  {
    var gainA := if a in masks then |masks[a] - covered| else 0;
    var gainB := if b in masks then |masks[b] - covered| else 0;
    gainA > gainB || (gainA == gainB && AtMost(a, b))
  }

  /** `masks` holds exactly the candidates that serve some event, with the events they serve. */
  ghost predicate MasksOf(options: seq<set<string>>, masks: map<string, set<nat>>) {
    && masks.Keys == AllIds(options)
    && (forall id | id in masks :: masks[id] == Mask(options, id))
  }

  /** An option that serves more new events is ahead, and of equals the one with the lesser ID. */
  ghost predicate Ahead(options: seq<set<string>>, covered: set<nat>, a: string, b: string) {
    var x, y := |Mask(options, a) - covered|, |Mask(options, b) - covered|;
    x > y || (x == y && (a == b || Before(a, b)))
  }

  /** The order the options are tried in. */
  ghost predicate MostNewFirst(options: seq<set<string>>, covered: set<nat>, order: seq<string>) {
    forall a, b {:trigger Ahead(options, covered, order[a], order[b])} | 0 <= a < b < |order| ::
      Ahead(options, covered, order[a], order[b])
  }

  lemma PreferredIsOrder(masks: map<string, set<nat>>, covered: set<nat>)
    ensures TotalPreorder((a, b) => Preferred(masks, covered, a, b))
  {
    var leq := (a: string, b: string) => Preferred(masks, covered, a, b);
    AtMostIsOrder();
    forall a, b ensures leq(a, b) || leq(b, a) {
      assert AtMost(a, b) || AtMost(b, a);
    }
    forall a, b, c | leq(a, b) && leq(b, c) ensures leq(a, c) {
      assert AtMost(a, b) && AtMost(b, c) ==> AtMost(a, c);
    }
  }

  lemma SortedByPreference(options: seq<set<string>>, masks: map<string, set<nat>>, covered: set<nat>,
                           listed: seq<string>, order: seq<string>)
    requires MasksOf(options, masks) && Elements(listed) <= masks.Keys
    requires order == SortBy(listed, (a, b) => Preferred(masks, covered, a, b))
    ensures MostNewFirst(options, covered, order)
  {
    var leq := (a: string, b: string) => Preferred(masks, covered, a, b);
    PreferredIsOrder(masks, covered);
    SortBySorted(listed, leq);
    forall a, b | 0 <= a < b < |order| ensures Ahead(options, covered, order[a], order[b]) {
      assert leq(order[a], order[b]);
      assert order[a] in Elements(order) && order[b] in Elements(order);
    }
  }

  lemma AllServed(options: seq<set<string>>, chosen: seq<string>, covered: set<nat>)
    requires Serves(options, chosen, covered) && covered == Full(options)
    ensures Hits(options, Elements(chosen))
  {
    forall i | 0 <= i < |options| ensures options[i] * Elements(chosen) != {} {
      assert i in covered;
      var id :| id in chosen && id in options[i];
      assert id in options[i] * Elements(chosen);
    }
  }

  /** The memo entries of sets not above `covered` are untouched. */
  ghost predicate AgreeOutside(covered: set<nat>, before: map<set<nat>, nat>, after: map<set<nat>, nat>) {
    forall s | !(covered <= s) :: (s in before <==> s in after) && (s in after ==> after[s] == before[s])
  }

  lemma AllIdsHit(options: seq<set<string>>)
    requires forall i | 0 <= i < |options| :: options[i] != {}
    ensures Hits(options, AllIds(options))
  {
    forall i | 0 <= i < |options| ensures options[i] * AllIds(options) != {} {
      var id :| id in options[i];
      assert id in options[i] * AllIds(options);
    }
  }

  lemma UnseenServesNothing(options: seq<set<string>>, id: string, n: nat)
    requires n <= |options| && id !in IdsBelow(options, n)
    ensures MaskBelow(options, id, n) == {}
  {
  }

  /** `chosen` is a repetition-free choice that serves exactly `covered`. */
  ghost predicate Node(options: seq<set<string>>, masks: map<string, set<nat>>, covered: set<nat>, chosen: seq<string>)
  {
    Distinct(chosen) && Elements(chosen) <= masks.Keys && Serves(options, chosen, covered)
  }

  /** Choosing an option of an uncovered event strictly enlarges the covered set. */
  lemma Advance(options: seq<set<string>>, masks: map<string, set<nat>>, covered: set<nat>, chosen: seq<string>,
                target: nat, id: string)
    requires MasksOf(options, masks) && Node(options, masks, covered, chosen)
    requires target < |options| && target !in covered && id in options[target]
    ensures id in masks && covered < covered + masks[id] <= Full(options)
    ensures Node(options, masks, covered + masks[id], chosen + [id])
  {
    assert target in Mask(options, id);
  }

  /** Among the uncovered events below `n`, `target` is the first with the fewest options. */
  ghost predicate Narrowest(options: seq<set<string>>, covered: set<nat>, target: nat, n: nat)
    requires target < |options| && n <= |options|
  {
    forall j: nat | j < n && j !in covered ::
      |options[target]| < |options[j]| || (|options[target]| == |options[j]| && target <= j)
  }

  /** The first uncovered event with the fewest useful options. */
  method Target(options: seq<set<string>>, masks: map<string, set<nat>>, covered: set<nat>) returns (target: nat)
    requires MasksOf(options, masks) && !(Full(options) <= covered)
    ensures target < |options| && target !in covered && Narrowest(options, covered, target, |options|)
  {
    var found := false;
    target := 0;
    var fewest := 0;
    for i := 0 to |options|
      invariant found ==> target < i && target !in covered && fewest == |options[target]|
      invariant found ==> Narrowest(options, covered, target, i)
      invariant !found ==> forall j: nat | j < i :: j in covered
    {
      if i !in covered {
        BranchingIsStatic(options, masks, covered, i);
        var key := Branching(options, masks, covered, i);
        if !found || key < fewest {
          found, target, fewest := true, i, key;
        }
      }
    }
  }

  /** Iterates a Python set or dict: every element once, in an order the language does not fix. */
  method ListKeys(ids: set<string>) returns (r: seq<string>)
    ensures Elements(r) == ids && Distinct(r)
  {
    r := [];
    var rest := ids;
    while rest != {}
      invariant rest <= ids && Distinct(r)
      invariant forall id :: id in r <==> id in ids && id !in rest
    {
      var id :| id in rest;
      r, rest := r + [id], rest - {id};
    }
  }

  class Search {
    const options: seq<set<string>>
    var masks: map<string, set<nat>>
    var best: seq<string>
    var memo: map<set<nat>, nat>

    ghost predicate Valid()
      reads this
    {
      && MasksOf(options, masks)
      && Distinct(best) && Elements(best) <= masks.Keys
      && Hits(options, Elements(best))
    }

    /** The subproblem recorded under `covered` is exhausted: it cannot improve on `best`. */
    ghost predicate Finished(covered: set<nat>)
      requires covered in memo
      reads this
    {
      NoCheaper(options, covered, memo[covered], |best|)
    }

    /** Every memo entry is exhausted or belongs to a call still on the stack. */
    ghost predicate Recorded(open: set<set<nat>>)
      reads this
    {
      forall s | s in memo && s !in open :: Finished(s)
    }

    constructor (options: seq<set<string>>)
      requires forall i | 0 <= i < |options| :: options[i] != {}
      ensures this.options == options && Valid() && memo == map[]
    {
      this.options := options;
      this.masks := map[];
      this.best := [];
      this.memo := map[];
      new;
      BuildMasks();
      best := ListKeys(masks.Keys);
      AllIdsHit(options);
    }

    method BuildMasks()
      requires masks == map[]
      modifies this`masks
      ensures MasksOf(options, masks)
    {
      for i := 0 to |options|
        invariant masks.Keys == IdsBelow(options, i)
        invariant forall id | id in masks :: masks[id] == MaskBelow(options, id, i)
      {
        AddEvent(i);
      }
    }

    /** One turn of the mask-building loop. */
    method AddEvent(i: nat)
      requires i < |options|
      requires masks.Keys == IdsBelow(options, i)
      requires forall id | id in masks :: masks[id] == MaskBelow(options, id, i)
      modifies this`masks
      ensures masks.Keys == IdsBelow(options, i + 1)
      ensures forall id | id in masks :: masks[id] == MaskBelow(options, id, i + 1)
    {
      var rest := options[i];
      while rest != {}
        invariant rest <= options[i]
        invariant masks.Keys == IdsBelow(options, i) + (options[i] - rest)
        invariant forall id | id in masks && id in options[i] - rest :: masks[id] == MaskBelow(options, id, i + 1)
        invariant forall id | id in masks && id !in options[i] - rest :: masks[id] == MaskBelow(options, id, i)
      {
        var id :| id in rest;
        if id !in masks {
          UnseenServesNothing(options, id, i);
        }
        masks := masks[id := (if id in masks then masks[id] else {}) + {i}];
        rest := rest - {id};
      }
    }

    /** A pruned call loses nothing: either `chosen` is already too long, or the memo holds an
        exhausted entry (an open one would be a proper subset of `covered`). */
    lemma Pruned(covered: set<nat>, chosen: seq<string>, open: set<set<nat>>)
      requires Recorded(open) && covered !in open
      requires |chosen| >= |best| || (covered in memo && memo[covered] <= |chosen|)
      ensures NoCheaper(options, covered, |chosen|, |best|)
    {
      if |chosen| < |best| {
        assert Finished(covered);
      }
    }

    /** `search`: tightens `best` until nothing reachable from `covered` beats it. `open` are the
        covered sets of the calls on the stack, whose memo entries are not yet exhausted. */
    method Run(covered: set<nat>, chosen: seq<string>, ghost open: set<set<nat>>)
      requires Valid() && Recorded(open)
      requires forall s | s in open :: s < covered
      requires Node(options, masks, covered, chosen)
      modifies this`best, this`memo
      ensures Valid() && Recorded(open)
      ensures |best| <= old(|best|)
      ensures NoCheaper(options, covered, |chosen|, |best|)
      ensures AgreeOutside(covered, old(memo), memo)
      decreases Full(options) - covered, 1
    {
      if covered == Full(options) {
        if |chosen| < |best| {
          best := chosen;
          AllServed(options, chosen, covered);
        }
        return;
      }
      if |chosen| >= |best| || (covered in memo && memo[covered] <= |chosen|) {
        Pruned(covered, chosen, open);
        return;
      }
      memo := memo[covered := |chosen|];
      var target := Target(options, masks, covered);
      var listed := ListKeys(options[target]);
      var known := masks;
      var order := SortBy(listed, (a, b) => Preferred(known, covered, a, b));
      SortedByPreference(options, known, covered, listed, order);
      Branch(covered, chosen, target, order, open);
    }

    /** The loop over the target event's options. */
    method Branch(covered: set<nat>, chosen: seq<string>, target: nat, order: seq<string>, ghost open: set<set<nat>>)
      requires Valid() && Recorded(open + {covered})
      requires forall s | s in open :: s < covered
      requires Node(options, masks, covered, chosen)
      requires target < |options| && target !in covered && Elements(order) == options[target]
      requires MostNewFirst(options, covered, order)
      requires covered in memo && memo[covered] == |chosen|
      modifies this`best, this`memo
      ensures Valid() && Recorded(open)
      ensures |best| <= old(|best|)
      ensures NoCheaper(options, covered, |chosen|, |best|)
      ensures AgreeOutside(covered, old(memo), memo)
      decreases Full(options) - covered, 0
    {
      for k := 0 to |order|
        invariant Valid() && Recorded(open + {covered})
        invariant |best| <= old(|best|)
        invariant covered in memo && memo[covered] == |chosen|
        invariant AgreeOutside(covered, old(memo), memo)
        invariant Tried(options, covered, order, k, |chosen|, |best|)
      {
        var id := order[k];
        assert id in Elements(order);
        Advance(options, masks, covered, chosen, target, id);
        ghost var earlier := |best|;
        Run(covered + masks[id], chosen + [id], open + {covered});
        TriedOneMore(options, covered, order, k, |chosen|, earlier, |best|);
      }
      AllTried(options, covered, target, order, |chosen|, |best|);
      assert Finished(covered);
    }

  }

  function OptionSets(events: seq<Event>, candidates: seq<Candidate>): seq<set<string>> {
    seq(|events|, i requires 0 <= i < |events| => Options(events[i].bundles, candidates))
  }

  /** The candidate shows one of the event's bundles whole. */
  ghost predicate Exposes(c: Candidate, e: Event) {
    exists b :: b in e.bundles && InView(c, b)
  }

  ghost predicate Exposed(candidates: seq<Candidate>, e: Event) {
    exists c :: c in candidates && Exposes(c, e)
  }

  /** No candidate exposes the event at `i`, and every one before it is exposed. */
  ghost predicate FirstUnexposed(candidates: seq<Candidate>, events: seq<Event>, i: nat) {
    && i < |events| && (forall c | c in candidates :: !Exposes(c, events[i]))
    && forall j | 0 <= j < i :: Exposed(candidates, events[j])
  }

  /** One of the candidates of those IDs exposes the event. */
  ghost predicate ExposedBy(candidates: seq<Candidate>, ids: set<string>, e: Event) {
    exists c :: c in candidates && c.id in ids && Exposes(c, e)
  }

  ghost predicate ExposesAll(candidates: seq<Candidate>, ids: set<string>, events: seq<Event>) {
    forall e | e in events :: ExposedBy(candidates, ids, e)
  }

  /** `ids` names candidates without repetition, each of which exposes some event, that together
      expose every event; and no set of IDs that does is smaller. */
  ghost predicate Smallest(candidates: seq<Candidate>, events: seq<Event>, ids: seq<string>) {
    && Distinct(ids)
    && (forall id | id in ids :: exists c, e :: c in candidates && c.id == id && e in events && Exposes(c, e))
    && ExposesAll(candidates, Elements(ids), events)
    && forall other | ExposesAll(candidates, other, events) :: |ids| <= |other|
  }

  lemma OptionsMean(candidates: seq<Candidate>, e: Event)
    ensures forall id :: id in Options(e.bundles, candidates) <==>
      exists c :: c in candidates && c.id == id && Exposes(c, e)
  {
    forall c, b ensures Shows(c, b) <==> InView(c, b) {
      ShowsMeans(c, b);
    }
  }

  lemma HitsMean(candidates: seq<Candidate>, events: seq<Event>, ids: set<string>)
    ensures Hits(OptionSets(events, candidates), ids) <==> ExposesAll(candidates, ids, events)
  {
    var sets := OptionSets(events, candidates);
    forall i | 0 <= i < |events| ensures sets[i] * ids != {} <==> ExposedBy(candidates, ids, events[i]) {
      OptionsMean(candidates, events[i]);
      if ExposedBy(candidates, ids, events[i]) {
        var c :| c in candidates && c.id in ids && Exposes(c, events[i]);
        assert c.id in sets[i] * ids;
      }
      if sets[i] * ids != {} {
        var id :| id in sets[i] * ids;
      }
    }
    if ExposesAll(candidates, ids, events) {
      forall i | 0 <= i < |sets| ensures sets[i] * ids != {} {
        assert events[i] in events;
      }
    }
    if Hits(sets, ids) {
      forall e | e in events ensures ExposedBy(candidates, ids, e) {
        var i :| 0 <= i < |events| && events[i] == e;
        assert sets[i] * ids != {};
      }
    }
  }

  lemma {:induction false} OptionOf(options: seq<set<string>>, n: nat, id: string) returns (i: nat)
    requires n <= |options| && id in IdsBelow(options, n)
    ensures i < n && id in options[i]
  {
    if id in options[n - 1] {
      i := n - 1;
    } else {
      i := OptionOf(options, n - 1, id);
    }
  }

  /** What the search leaves behind, sorted. */
  lemma FoundIsSmallest(candidates: seq<Candidate>, events: seq<Event>, best: seq<string>, ids: seq<string>)
    requires var sets := OptionSets(events, candidates);
             Hits(sets, Elements(best)) && Elements(best) <= AllIds(sets) && NoCheaper(sets, {}, 0, |best|)
    requires Distinct(ids) && Elements(ids) == Elements(best) && |ids| == |best|
    ensures Smallest(candidates, events, ids)
  {
    var sets := OptionSets(events, candidates);
    HitsMean(candidates, events, Elements(ids));
    forall other | ExposesAll(candidates, other, events) ensures |ids| <= |other| {
      HitsMean(candidates, events, other);
      assert Completes(sets, {}, other);
    }
    forall id | id in ids ensures exists c, e :: c in candidates && c.id == id && e in events && Exposes(c, e) {
      assert id in Elements(ids);
      var i := OptionOf(sets, |sets|, id);
      OptionsMean(candidates, events[i]);
    }
  }

  /** `_minimum_hitting_set`. */
  method MinimumHittingSet(events: seq<Event>, candidates: seq<Candidate>)
    returns (r: Result<seq<string>, Unexposed>)
    ensures r.Ok? <==> forall e | e in events :: Exposed(candidates, e)
    ensures r.Refused? ==>
      exists i: nat :: FirstUnexposed(candidates, events, i) && events[i].id == r.error.eventId
    ensures r.Ok? ==> Smallest(candidates, events, r.value)
    ensures r.Ok? ==> forall i, j | 0 <= i < j < |r.value| :: Before(r.value[i], r.value[j])
  {
    var sets: seq<set<string>> := [];
    for i := 0 to |events|
      invariant sets == OptionSets(events[..i], candidates)
      invariant forall j | 0 <= j < i :: Exposed(candidates, events[j])
      invariant forall j | 0 <= j < i :: sets[j] != {}
    {
      var options := Options(events[i].bundles, candidates);
      OptionsMean(candidates, events[i]);
      if options == {} {
        assert events[i] in events;
        forall c | c in candidates ensures !Exposes(c, events[i]) {
          assert c.id !in options;
        }
        assert FirstUnexposed(candidates, events, i);
        return Refused(Unexposed(events[i].id));
      }
      sets := sets + [options];
    }
    assert events[..|events|] == events;
    var search := new Search(sets);
    search.Run({}, [], {});
    r := Ok(SortBy(search.best, AtMost));
    SortByDistinct(search.best, AtMost);
    AtMostIsOrder();
    SortBySorted(search.best, AtMost);
    forall i, j | 0 <= i < j < |r.value| ensures Before(r.value[i], r.value[j]) {
      assert AtMost(r.value[i], r.value[j]) && r.value[i] != r.value[j];
    }
    FoundIsSmallest(candidates, events, search.best, r.value);
  }
}
