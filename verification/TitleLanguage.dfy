/** The language of the title machine: the n + 1 responses, with blanks around them. */
module TitleLanguage {
  import opened Common
  import opened ResponseMachine
  import opened TitleContract

  lemma {:induction false} LiteralRead(values: seq<string>, text: string, index: nat, cont: State)
    requires index < |text|
    ensures TitleMachine(values).Run(Lit(text, index, cont), text[index..]) == Some(cont)
    decreases |text| - index
  {
    assert text[index..][1..] == text[index + 1..];
    if index + 1 < |text| {
      LiteralRead(values, text, index + 1, cont);
    }
  }

  lemma {:induction false} LiteralNeeded(values: seq<string>, text: string, index: nat, cont: State, input: string)
    returns (rest: string)
    requires index < |text| && TitleMachine(values).Run(Lit(text, index, cont), input) == Some(Done)
    ensures input == text[index..] + rest && TitleMachine(values).Run(cont, rest) == Some(Done)
    decreases |text| - index
  {
    assert input == [input[0]] + input[1..];
    if index + 1 < |text| {
      rest := LiteralNeeded(values, text, index + 1, cont, input[1..]);
      assert text[index..] == [text[index]] + text[index + 1..];
    } else {
      rest := input[1..];
    }
  }

  lemma {:induction false} BlankRead(values: seq<string>, s: State, blank: string)
    requires (s == Pre || s == Done) && Blank(blank)
    ensures TitleMachine(values).Run(s, blank) == Some(s)
  {
    if blank == [] {
    } else {
      BlankRead(values, s, blank[1..]);
    }
  }

  lemma {:induction false} BlankNeeded(values: seq<string>, input: string)
    requires TitleMachine(values).Run(Done, input) == Some(Done)
    ensures Blank(input)
  {
    if input == [] {
    } else {
      BlankNeeded(values, input[1..]);
      assert input == [input[0]] + input[1..];
    }
  }

  /** From any prefix of a value, the rest of that value closes the response. */
  lemma {:induction false} ValueRead(values: seq<string>, value: string, k: nat)
    requires Closed(values) && value in values && k <= |value|
    ensures TitleMachine(values).Run(Val(value[..k]), value[k..] + "}") == Some(Done)
    decreases |value| - k
  {
    var input := value[k..] + "}";
    if k == |value| {
      assert value[..k] == value && input == "}" && input[1..] == [];
    } else {
      assert input[0] == value[k] && input[1..] == value[k + 1..] + "}";
      assert value[..k] + [value[k]] == value[..k + 1] <= value;
      ValueRead(values, value, k + 1);
    }
  }

  lemma {:induction false} ValueNeeded(values: seq<string>, prefix: string, input: string)
    returns (value: string, trail: string)
    requires Closed(values) && TitleMachine(values).Run(Val(prefix), input) == Some(Done)
    ensures value in values && prefix <= value
    ensures input == value[|prefix|..] + "}" + trail && Blank(trail)
    decreases |input|
  {
    assert input == [input[0]] + input[1..];
    if input[0] == '}' && prefix in values {
      value, trail := prefix, input[1..];
      BlankNeeded(values, trail);
    } else {
      value, trail := ValueNeeded(values, prefix + [input[0]], input[1..]);
      assert value[|prefix|..] == [input[0]] + value[|prefix| + 1..];
    }
  }

  lemma PrefixNeeded(values: seq<string>, input: string) returns (rest: string)
    requires TitleMachine(values).Run(Pre, input) == Some(Done) && input != [] && !IsBlank(input[0])
    ensures input == PREFIX + rest && TitleMachine(values).Run(Val(""), rest) == Some(Done)
  {
    rest := LiteralNeeded(values, PREFIX, 0, Val(""), input);
    assert PREFIX[0..] == PREFIX;
  }

  lemma PartsRead(values: seq<string>, lead: string, prefix: string, value: string, trail: string)
    requires Closed(values) && value in values && Blank(lead) && Blank(trail)
    requires TitleMachine(values).Run(Pre, prefix) == Some(Val(""))
    ensures TitleMachine(values).Complete(lead + (prefix + value + "}") + trail)
  {
    var m := TitleMachine(values);
    BlankRead(values, Pre, lead);
    ValueRead(values, value, 0);
    assert value[..0] == "" && value[0..] == value && prefix + value + "}" == prefix + (value + "}");
    m.Chain(Pre, prefix, Val(""), value + "}");
    m.Chain(Pre, lead, Pre, prefix + value + "}");
    m.Chain(Pre, lead + (prefix + value + "}"), Done, trail);
    BlankRead(values, Done, trail);
  }

  lemma PrefixRead(values: seq<string>)
    ensures TitleMachine(values).Run(Pre, PREFIX) == Some(Val(""))
  {
    LiteralRead(values, PREFIX, 1, Val(""));
  }

  lemma ResponseIsComplete(values: seq<string>, lead: string, value: string, trail: string)
    requires Closed(values) && value in values && Blank(lead) && Blank(trail)
    ensures TitleMachine(values).Complete(lead + Response(value) + trail)
  {
    PrefixRead(values);
    PartsRead(values, lead, PREFIX, value, trail);
  }

  lemma Bracket(a: string, b: string, c: string)
    ensures a + (b[0..] + "}" + c) == [] + (a + b + "}") + c
  {
    assert b[0..] == b;
  }

  lemma {:induction false} CompleteIsResponse(values: seq<string>, input: string)
    returns (lead: string, value: string, trail: string)
    requires Closed(values) && TitleMachine(values).Complete(input)
    ensures value in values && Blank(lead) && Blank(trail) && input == lead + Response(value) + trail
  {
    assert input == [input[0]] + input[1..];
    if IsBlank(input[0]) {
      lead, value, trail := CompleteIsResponse(values, input[1..]);
      assert [input[0]] + (lead + Response(value) + trail) == [input[0]] + lead + Response(value) + trail;
      lead := [input[0]] + lead;
    } else {
      lead := [];
      var rest := PrefixNeeded(values, input);
      value, trail := ValueNeeded(values, "", rest);
      Bracket(PREFIX, value, trail);
    }
  }

  /** The accepted language, both ways: whitespace, one of the responses, whitespace. */
  lemma CompletesExactly(offered: seq<int>, input: string)
    requires ValuesFor(offered).Ok?
    ensures var values := ValuesFor(offered).value;
            TitleMachine(values).Complete(input) <==>
            exists lead, response, trail ::
              Blank(lead) && response in Language(values) && Blank(trail) && input == lead + response + trail
  {
    OfferValues(offered);
    var values := ValuesFor(offered).value;
    if TitleMachine(values).Complete(input) {
      var lead, value, trail := CompleteIsResponse(values, input);
      var i :| 0 <= i < |values| && values[i] == value;
      assert Language(values)[i] == Response(value);
    }
    forall lead, response, trail |
      Blank(lead) && response in Language(values) && Blank(trail) && input == lead + response + trail
      ensures TitleMachine(values).Complete(input)
    {
      var i :| 0 <= i < |values| && Language(values)[i] == response;
      ResponseIsComplete(values, lead, values[i], trail);
    }
  }

  // ---- No dead ends ----

  /** What holds of every state reached: it is inside the prefix, or holds the beginning of an
      offered value. */
  ghost predicate Sound(values: seq<string>, s: State) {
    match s
    case Lit(text, index, cont) => text == PREFIX && index < |text| && cont == Val("")
    case Val(prefix) => exists value :: value in values && prefix <= value
    case _ => true
  }

  lemma {:induction false} RunSound(values: seq<string>, s: State, text: string)
    requires Closed(values) && Sound(values, s) && TitleMachine(values).Run(s, text).Some?
    ensures Sound(values, TitleMachine(values).Run(s, text).value)
    decreases |text|
  {
    if text == [] {
    } else {
      assert "" <= values[0] && values[0] in values;
      assert Sound(values, Step(values, s, text[0]).value);
      RunSound(values, Step(values, s, text[0]).value, text[1..]);
    }
  }

  /** The characters some response is spelled with. */
  function Spelling(values: seq<string>): set<char> {
    set value, c | value in values && c in Response(value) :: c
  }

  lemma ResponseOver(values: seq<string>, value: string, from: nat)
    requires value in values && from <= |Response(value)|
    ensures Over(Response(value)[from..], Spelling(values))
  {
    forall i | 0 <= i < |Response(value)[from..]| ensures Response(value)[from..][i] in Spelling(values) {
      assert Response(value)[from..][i] in Response(value);
    }
  }

  lemma Behind(a: string, b: string, c: string, index: nat)
    requires index <= |a|
    ensures (a + b + c)[index..] == a[index..] + (b[0..] + c)
  {
  }

  lemma FinishValue(values: seq<string>, prefix: string, value: string) returns (text: string)
    requires Closed(values) && value in values && prefix <= value
    ensures text == value[|prefix|..] + "}"
    ensures TitleMachine(values).Run(Val(prefix), text) == Some(Done) && Over(text, Spelling(values))
  {
    ValueRead(values, value, |prefix|);
    assert value[..|prefix|] == prefix;
    text := value[|prefix|..] + "}";
    var from := |PREFIX| + |prefix|;
    ResponseOver(values, value, from);
    assert Response(value)[from..] == text;
  }

  lemma FinishPrefix(values: seq<string>, index: nat) returns (text: string)
    requires Closed(values) && index < |PREFIX|
    ensures TitleMachine(values).Run(Lit(PREFIX, index, Val("")), text) == Some(Done) && Over(text, Spelling(values))
  {
    var s, first := Lit(PREFIX, index, Val("")), values[0];
    LiteralRead(values, PREFIX, index, Val(""));
    var rest := FinishValue(values, "", first);
    TitleMachine(values).Chain(s, PREFIX[index..], Val(""), rest);
    ResponseOver(values, first, index);
    Behind(PREFIX, first, "}", index);
    text := PREFIX[index..] + rest;
  }

  /** A continuation that completes a response, in characters of the responses. */
  lemma Finish(values: seq<string>, s: State) returns (text: string)
    requires Closed(values) && Sound(values, s)
    ensures TitleMachine(values).Run(s, text) == Some(Done) && Over(text, Spelling(values))
  {
    match s
    case Pre =>
      ResponseIsComplete(values, "", values[0], "");
      ResponseOver(values, values[0], 0);
      text := Response(values[0]);
      assert "" + text + "" == text && text[0..] == text;
    case Lit(t, index, cont) =>
      text := FinishPrefix(values, index);
    case Val(prefix) =>
      var value :| value in values && prefix <= value;
      text := FinishValue(values, prefix, value);
    case Done =>
      text := [];
  }

  /** Every reachable state can still be completed. */
  lemma NoDeadEnds(offered: seq<int>, s: State)
    requires ValuesFor(offered).Ok? && TitleMachine(ValuesFor(offered).value).Reachable(s)
    ensures TitleMachine(ValuesFor(offered).value).CanFinish(s)
    ensures TitleMachine(ValuesFor(offered).value).CanFinishWith(s, Spelling(ValuesFor(offered).value))
  {
    OfferValues(offered);
    var values := ValuesFor(offered).value;
    var text :| TitleMachine(values).Run(Pre, text) == Some(s);
    RunSound(values, Pre, text);
    var rest := Finish(values, s);
  }
}
