/** What the masks buy over whole generations, for both contracts. */
module MaskedRuns {
  import opened Common
  import opened JsonGrammar
  import opened TokenMask
  import NoteContract
  import NoteProgress
  import NoteJson
  import TitleContract
  import TitleLanguage
  import TitleDecoding
  import JsonValue

  /** A note run that was allowed to stop has emitted JSON that spells valid items, and nothing
      else. */
  lemma NoteStopsOnJson(l: NoteContract.Limits, t: Tokens, sampled: seq<nat>) returns (items: seq<NoteContract.Item>)
    requires t.Sampled(NoteContract.NoteMachine(l), sampled)
    requires |sampled| > 1 && sampled[|sampled| - 1] in t.eos
    ensures NoteContract.ValidItems(l, items) && IsJson(t.Emitted(sampled))
    ensures forall tree, pre, post | Derives(tree, pre, post, t.Emitted(sampled)) ::
      tree == NoteJson.DocumentTree(items)
  {
    t.StopsComplete(NoteContract.NoteMachine(l), sampled);
    var lead, trail;
    lead, items, trail := NoteJson.CompleteIsJson(l, t.Emitted(sampled));
  }

  /** A processor of the note contract refuses exactly what has left the contract, once every
      character the contract is spelled with is a token of its own. */
  lemma NoteRefusesOutside(l: NoteContract.Limits, t: Tokens, emitted: seq<nat>)
    requires (l.maxItems == 0 || l.maxIds > 0) && t.Spells(NoteProgress.Skeleton()) && t.eos != {}
    ensures var m := NoteContract.NoteMachine(l);
            t.Mask(m, emitted).Ok? <==> m.Viable(t.Emitted(emitted))
  {
    var m := NoteContract.NoteMachine(l);
    forall s | m.Reachable(s) ensures m.CanFinishWith(s, NoteProgress.Skeleton()) {
      NoteProgress.ReachableFinishes(l, s);
    }
    t.RefusesOutside(m, emitted, NoteProgress.Skeleton());
  }

  /** A masked note run past its first step is not refused, as long as its last token decodes in its
      place as it does alone. */
  lemma NoteNeverRefused(l: NoteContract.Limits, t: Tokens, sampled: seq<nat>)
    requires (l.maxItems == 0 || l.maxIds > 0) && t.Spells(NoteProgress.Skeleton()) && t.eos != {}
    requires |sampled| > 1 && t.Sampled(NoteContract.NoteMachine(l), sampled) && t.LastJoins(sampled)
    ensures t.Mask(NoteContract.NoteMachine(l), sampled).Ok?
  {
    t.StaysViable(NoteContract.NoteMachine(l), sampled);
    NoteRefusesOutside(l, t, sampled);
  }

  /** Joining cannot be left out: where two tokens decode together to something else than they do
      one by one, a run sampled from the mask leaves the contract, and the next call refuses it. */
  lemma MaskedRunLeaves(l: NoteContract.Limits) returns (t: Tokens, sampled: seq<nat>)
    ensures t.eos != {} && |sampled| == 2 && t.Sampled(NoteContract.NoteMachine(l), sampled)
    ensures t.Mask(NoteContract.NoteMachine(l), sampled) == Refused(LeftContract)
  {
    var m := NoteContract.NoteMachine(l);
    t := Tokens(map[0 := "", 1 := "{", 2 := "\""], {0}, body => if |body| == 1 then "{" else "x");
    sampled := [1, 2];
    assert sampled[..1] == [1] && sampled[1..] == [2] && [1][1..] == [] && [2][1..] == [];
    assert WithoutEnds([2], t.eos) == [2] && WithoutEnds([1], t.eos) == [1] && WithoutEnds(sampled, t.eos) == [1, 2];
    assert "{"[1..] == [] && "\""[1..] == [] && "x"[1..] == [];
    var state := NoteContract.Lit(NoteContract.HEAD, 1, NoteContract.Items(0));
    assert m.Run(m.start, "{") == Some(state);
    assert Continues(m, state, t.vocabulary[2]);
    assert 2 in Allowed(m, state, t.vocabulary, t.eos);
  }

  /** A title run that was allowed to stop decodes to an offered turn or to the abstention,
      and not to anything else. */
  lemma TitleStopsOnOffer(offered: seq<int>, t: Tokens, sampled: seq<nat>, unescape: string -> string)
    requires TitleContract.ValuesFor(offered).Ok? && unescape("turn") == "turn"
    requires t.Sampled(TitleContract.TitleMachine(TitleContract.ValuesFor(offered).value), sampled)
    requires |sampled| > 1 && sampled[|sampled| - 1] in t.eos
    ensures IsJson(t.Emitted(sampled))
    ensures exists answer: Option<int> ::
      && (answer.Some? ==> answer.value in offered)
      && forall tree, pre, post | Derives(tree, pre, post, t.Emitted(sampled)) ::
           TitleDecoding.Decode(JsonValue.Value(tree, unescape), offered) == Ok(answer)
  {
    var values := TitleContract.ValuesFor(offered).value;
    var text := t.Emitted(sampled);
    t.StopsComplete(TitleContract.TitleMachine(values), sampled);
    TitleContract.OfferValues(offered);
    var lead, value, trail := TitleLanguage.CompleteIsResponse(values, text);
    var k: nat :| k < |values| && values[k] == value;
    TitleDecoding.DecodesToOffer(offered, k, lead, trail, unescape);
    var answer := if k == 0 then None else Some(offered[k - 1]);
    assert answer.Some? ==> answer.value in offered;
  }

  /** A processor of the title contract refuses exactly what has left the contract, once every
      character of its responses is a token of its own. */
  lemma TitleRefusesOutside(offered: seq<int>, t: Tokens, emitted: seq<nat>)
    requires TitleContract.ValuesFor(offered).Ok? && t.eos != {}
    requires t.Spells(TitleLanguage.Spelling(TitleContract.ValuesFor(offered).value))
    ensures var m := TitleContract.TitleMachine(TitleContract.ValuesFor(offered).value);
            t.Mask(m, emitted).Ok? <==> m.Viable(t.Emitted(emitted))
  {
    var values := TitleContract.ValuesFor(offered).value;
    var m := TitleContract.TitleMachine(values);
    forall s | m.Reachable(s) ensures m.CanFinishWith(s, TitleLanguage.Spelling(values)) {
      TitleLanguage.NoDeadEnds(offered, s);
    }
    t.RefusesOutside(m, emitted, TitleLanguage.Spelling(values));
  }

  /** A masked title run past its first step is not refused, as long as its last token decodes in
      its place as it does alone. */
  lemma TitleNeverRefused(offered: seq<int>, t: Tokens, sampled: seq<nat>)
    requires TitleContract.ValuesFor(offered).Ok? && t.eos != {}
    requires t.Spells(TitleLanguage.Spelling(TitleContract.ValuesFor(offered).value))
    requires |sampled| > 1 && t.LastJoins(sampled)
    requires t.Sampled(TitleContract.TitleMachine(TitleContract.ValuesFor(offered).value), sampled)
    ensures t.Mask(TitleContract.TitleMachine(TitleContract.ValuesFor(offered).value), sampled).Ok?
  {
    t.StaysViable(TitleContract.TitleMachine(TitleContract.ValuesFor(offered).value), sampled);
    TitleRefusesOutside(offered, t, sampled);
  }
}
