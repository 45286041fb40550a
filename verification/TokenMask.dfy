/** Token masks over a character machine: the per-state allowed set, and the processor that
    caches it. Both serve the note machine and the title machine unchanged. */
module TokenMask {
  import opened Common
  import opened ResponseMachine

  datatype MaskRefused = NothingContinues | NoEndToken | LeftContract

  /** A masked column stays at minus infinity. */
  datatype Logit = Value(value: real) | NegativeInfinity

  predicate Continues<S(==)>(m: Machine<S>, state: S, text: string) {
    text != [] && m.Run(state, text).Some?
  }

  /** The tokens that keep the contract reachable from `state`. */
  function Allowed<S(==)>(m: Machine<S>, state: S, vocabulary: map<nat, string>, eos: set<nat>): set<nat> {
    (if state == m.done then eos else {})
    + set id | id in vocabulary && Continues(m, state, vocabulary[id]) && id !in eos
  }

  function Chosen(allowed: set<nat>): Result<set<nat>, MaskRefused> {
    if allowed == {} then Refused(NothingContinues) else Ok(allowed)
  }

  /** `allowed_token_ids`. */
  method AllowedTokenIds<S(==)>(m: Machine<S>, state: S, vocabulary: map<nat, string>, eos: set<nat>)
    returns (r: Result<set<nat>, MaskRefused>)
    ensures r == Chosen(Allowed(m, state, vocabulary, eos))
  {
    var allowed := {};
    if state == m.done {
      allowed := eos;
    }
    ghost var ends := allowed;
    var rest := vocabulary.Keys;
    while rest != {}
      invariant rest <= vocabulary.Keys
      invariant allowed == ends +
        set id | id in vocabulary && Continues(m, state, vocabulary[id]) && id !in eos && id !in rest
    {
      var id :| id in rest;
      rest := rest - {id};
      if id !in eos && vocabulary[id] != [] {
        var next := m.StateAfter(vocabulary[id], state);
        if next.Some? {
          allowed := allowed + {id};
        }
      }
    }
    assert allowed == Allowed(m, state, vocabulary, eos);
    r := if allowed == {} then Refused(NothingContinues) else Ok(allowed);
  }

  function WithoutEnds(tokens: seq<nat>, eos: set<nat>): seq<nat> {
    if tokens == [] then []
    else (if tokens[0] in eos then [] else [tokens[0]]) + WithoutEnds(tokens[1..], eos)
  }

  /** What a processor is built from; `decode` is the tokenizer's. */
  datatype Tokens = Tokens(vocabulary: map<nat, string>, eos: set<nat>, decode: seq<nat> -> string) {

    function Emitted(tokens: seq<nat>): string {
      var body := WithoutEnds(tokens, eos);
      if body == [] then "" else decode(body)
    }

    /** The mask a processor without any cache would compute. */
    function Mask<S(==)>(m: Machine<S>, tokens: seq<nat>): Result<set<nat>, MaskRefused> {
      var state := m.Run(m.start, Emitted(tokens));
      if state.None? then Refused(LeftContract)
      else Chosen(Allowed(m, state.value, vocabulary, eos))
    }

    /** The prefix test the cached mask stands in for. */
    lemma MaskIsPrefixTest<S>(m: Machine<S>, tokens: seq<nat>, id: nat)
      requires Mask(m, tokens).Ok?
      ensures id in eos ==> (id in Mask(m, tokens).value <==> m.Complete(Emitted(tokens)))
      ensures id !in eos ==> (id in Mask(m, tokens).value <==>
        id in vocabulary && vocabulary[id] != [] && m.Viable(Emitted(tokens) + vocabulary[id]))
    {
      if id in vocabulary {
        m.RunConcat(m.start, Emitted(tokens), vocabulary[id]);
      }
    }

    /** Each of these characters is a token of its own. */
    ghost predicate Spells(chars: set<char>) {
      forall c | c in chars :: IsToken(c)
    }

    ghost predicate IsToken(c: char) {
      exists id :: id in vocabulary && id !in eos && vocabulary[id] == [c]
    }

    /** A processor cannot refuse a text from which the contract can still be completed in
        characters that are tokens. */
    lemma NeverRefuses<S>(m: Machine<S>, tokens: seq<nat>, chars: set<char>)
      requires Spells(chars) && eos != {}
      requires m.Run(m.start, Emitted(tokens)).Some?
      requires m.CanFinishWith(m.Run(m.start, Emitted(tokens)).value, chars)
      ensures Mask(m, tokens).Ok?
    {
      var state := m.Run(m.start, Emitted(tokens)).value;
      if state != m.done {
        var text :| Over(text, chars) && m.Run(state, text) == Some(m.done);
        assert text[0] in chars && IsToken(text[0]);
        var id :| id in vocabulary && id !in eos && vocabulary[id] == [text[0]];
        assert [text[0]][1..] == [];
        assert Continues(m, state, vocabulary[id]);
        assert id in Allowed(m, state, vocabulary, eos);
      }
    }

    /** Over a machine without dead ends in those characters, what is refused is exactly what has
        left the contract. */
    lemma RefusesOutside<S>(m: Machine<S>, tokens: seq<nat>, chars: set<char>)
      requires Spells(chars) && eos != {} && forall s :: m.Reachable(s) ==> m.CanFinishWith(s, chars)
      ensures Mask(m, tokens).Ok? <==> m.Viable(Emitted(tokens))
    {
      if m.Viable(Emitted(tokens)) {
        var state := m.Run(m.start, Emitted(tokens)).value;
        assert m.Reachable(state);
        NeverRefuses(m, tokens, chars);
      }
    }

    /** After the first token, which no mask sees, each token was taken from the mask. */
    ghost predicate Sampled<S>(m: Machine<S>, tokens: seq<nat>) {
      forall k | 1 <= k < |tokens| :: Mask(m, tokens[..k]).Ok? && tokens[k] in Mask(m, tokens[..k]).value
    }

    /** A run that stopped, stopped on a complete response. */
    lemma StopsComplete<S>(m: Machine<S>, tokens: seq<nat>)
      requires Sampled(m, tokens) && |tokens| > 1 && tokens[|tokens| - 1] in eos
      ensures m.Complete(Emitted(tokens))
    {
      var k := |tokens| - 1;
      MaskIsPrefixTest(m, tokens[..k], tokens[k]);
      assert tokens == tokens[..k] + [tokens[k]];
      EndIsDropped(tokens[..k], tokens[k]);
      assert WithoutEnds(tokens, eos) == WithoutEnds(tokens[..k], eos);
    }

    lemma {:induction false} EndIsDropped(tokens: seq<nat>, id: nat)
      ensures WithoutEnds(tokens + [id], eos) == WithoutEnds(tokens, eos) + (if id in eos then [] else [id])
    {
      if tokens == [] {
        assert (tokens + [id])[1..] == [];
      } else {
        assert (tokens + [id])[1..] == tokens[1..] + [id];
        EndIsDropped(tokens[1..], id);
        AppendAssociates(if tokens[0] in eos then [] else [tokens[0]], WithoutEnds(tokens[1..], eos),
                         if id in eos then [] else [id]);
      }
    }

    /** What was emitted is what all sampled tokens but the stop tokens decode to, in their order, and
        nothing when there are none. */
    lemma EmittedMeans(tokens: seq<nat>) returns (at: seq<nat>, body: seq<nat>)
      ensures Rising(at) && Elements(at) == set i: nat | i < |tokens| && tokens[i] !in eos
      ensures |body| == |at| && forall j | 0 <= j < |at| :: at[j] < |tokens| && body[j] == tokens[at[j]]
      ensures Emitted(tokens) == if body == [] then "" else decode(body)
    {
      body := WithoutEnds(tokens, eos);
      at := BodyPlaces(tokens);
    }

    lemma {:induction false} BodyPlaces(tokens: seq<nat>) returns (at: seq<nat>)
      ensures Rising(at) && Elements(at) == set i: nat | i < |tokens| && tokens[i] !in eos
      ensures var body := WithoutEnds(tokens, eos);
              |body| == |at| && forall j | 0 <= j < |at| :: at[j] < |tokens| && body[j] == tokens[at[j]]
    {
      if tokens == [] {
        at := [];
      } else {
        var n := |tokens| - 1;
        at := BodyPlaces(tokens[..n]);
        assert tokens == tokens[..n] + [tokens[n]];
        EndIsDropped(tokens[..n], tokens[n]);
        var before := set i: nat | i < n && tokens[..n][i] !in eos;
        assert (set i: nat | i < |tokens| && tokens[i] !in eos) == before + if tokens[n] in eos then {} else {n};
        if tokens[n] !in eos {
          PlacesNext(at, n);
          at := at + [n];
        }
      }
    }

    /** The last token adds to what was emitted just its own text, or is a stop token. */
    ghost predicate LastJoins(tokens: seq<nat>)
      requires tokens != []
    {
      var k := |tokens| - 1;
      tokens[k] in eos || (tokens[k] in vocabulary && Emitted(tokens) == Emitted(tokens[..k]) + vocabulary[tokens[k]])
    }

    /** A run that was never refused has not left the contract, as long as its last token decodes
        in its place as it does alone. */
    lemma StaysViable<S>(m: Machine<S>, tokens: seq<nat>)
      requires |tokens| > 1 && Sampled(m, tokens) && LastJoins(tokens)
      ensures m.Viable(Emitted(tokens))
    {
      var k := |tokens| - 1;
      MaskIsPrefixTest(m, tokens[..k], tokens[k]);
      assert tokens == tokens[..k] + [tokens[k]];
      EndIsDropped(tokens[..k], tokens[k]);
      assert tokens[k] in eos ==> WithoutEnds(tokens, eos) == WithoutEnds(tokens[..k], eos);
    }
  }

  /** The tokens the sampler can still reach. */
  function Surviving(logits: seq<Logit>): set<nat> {
    set i: nat | i < |logits| && logits[i].Value?
  }

  /** `make_contract_logits_processor`: the mask per call, computed once per state. */
  class Processor<S(==)> {
    const machine: Machine<S>
    const tokens: Tokens
    var cache: map<S, set<nat>>

    ghost predicate Valid()
      reads this
    {
      forall s | s in cache :: cache[s] != {} && cache[s] == Allowed(machine, s, tokens.vocabulary, tokens.eos)
    }

    constructor (machine: Machine<S>, tokens: Tokens)
      ensures this.machine == machine && this.tokens == tokens && cache == map[] && Valid()
    {
      this.machine := machine;
      this.tokens := tokens;
      this.cache := map[];
    }

    /** Whatever earlier calls left in the cache, the answer is the uncached one. */
    method Indices(emittedTokens: seq<nat>) returns (r: Result<set<nat>, MaskRefused>)
      requires Valid()
      modifies this`cache
      ensures Valid()
      ensures r == tokens.Mask(machine, emittedTokens)
      ensures r.Ok? ==>
        cache.Keys == old(cache).Keys + {machine.Run(machine.start, tokens.Emitted(emittedTokens)).value}
      ensures r.Refused? ==> cache == old(cache)
    {
      var state := machine.StateAfter(tokens.Emitted(emittedTokens), machine.start);
      if state.None? {
        return Refused(LeftContract);
      }
      if state.value in cache {
        return Ok(cache[state.value]);
      }
      r := AllowedTokenIds(machine, state.value, tokens.vocabulary, tokens.eos);
      if r.Ok? {
        cache := cache[state.value := r.value];
      }
    }

    /** One call: the logits of the surviving tokens are kept, every other one is masked. */
    method Process(emittedTokens: seq<nat>, logits: seq<real>) returns (r: Result<seq<Logit>, MaskRefused>)
      requires Valid()
      modifies this`cache
      ensures Valid()
      ensures r.Refused? <==> tokens.Mask(machine, emittedTokens).Refused?
      ensures r.Refused? ==> r.error == tokens.Mask(machine, emittedTokens).error && cache == old(cache)
      ensures r.Ok? ==>
        Surviving(r.value) == set i: nat | i < |logits| && i in tokens.Mask(machine, emittedTokens).value
      ensures r.Ok? ==> |r.value| == |logits|
      ensures r.Ok? ==> forall i | 0 <= i < |logits| && r.value[i].Value? :: r.value[i].value == logits[i]
    {
      var indices := Indices(emittedTokens);
      if indices.Refused? {
        return Refused(indices.error);
      }
      r := Ok(seq(|logits|, i requires 0 <= i < |logits| =>
        if i in indices.value then Value(logits[i]) else NegativeInfinity));
    }
  }

  /** A tokenizer that names no end-of-turn token gets no processor. */
  method MakeProcessor<S(==)>(machine: Machine<S>, tokens: Tokens) returns (r: Result<Processor<S>, MaskRefused>)
    ensures r.Refused? <==> tokens.eos == {}
    ensures r.Refused? ==> r.error == NoEndToken
    ensures r.Ok? ==> r.value.Valid() && r.value.machine == machine && r.value.tokens == tokens && fresh(r.value)
  {
    if tokens.eos == {} {
      return Refused(NoEndToken);
    }
    var processor := new Processor(machine, tokens);
    r := Ok(processor);
  }
}
