/** `decode_response`, the enforcement boundary behind the title mask: whatever JSON reading a
    completed response has, it decodes to the very index it was printed from. */
module TitleDecoding {
  import opened Common
  import opened ResponseMachine
  import opened JsonGrammar
  import opened JsonUnambiguous
  import opened JsonData
  import opened JsonValue
  import opened Decimals
  import opened TitleContract

  datatype TitleRefused = ResponseContract | TurnNotOffered

  /** `decode_response` on parsed JSON. */
  function Decode(parsed: Json, offered: seq<int>): Result<Option<int>, TitleRefused> {
    if !parsed.JObject? || |parsed.pairs| != 1 || parsed.pairs[0].0 != "turn" then Refused(ResponseContract)
    else
      match parsed.pairs[0].1
      case JNull => Ok(None)
      case JInt(n) => if n in offered then Ok(Some(n)) else Refused(TurnNotOffered)
      case _ => Refused(ResponseContract)
  }

  /** The values that decode, written out, and what they decode to. */
  lemma DecodesExactly(parsed: Json, offered: seq<int>)
    ensures Decode(parsed, offered) == Ok(None) <==> parsed == JObject([("turn", JNull)])
    ensures forall n ::
      Decode(parsed, offered) == Ok(Some(n)) <==> n in offered && parsed == JObject([("turn", JInt(n))])
    ensures Decode(parsed, offered) == Refused(TurnNotOffered) <==>
      exists n :: n !in offered && parsed == JObject([("turn", JInt(n))])
  {
    if parsed.JObject? && |parsed.pairs| == 1 {
      assert parsed.pairs == [parsed.pairs[0]];
      if parsed.pairs[0].0 == "turn" && parsed.pairs[0].1.JInt? {
        assert parsed == JObject([("turn", JInt(parsed.pairs[0].1.n))]);
      }
    }
  }

  // ---- The derivation of a response ----

  function ValueTree(value: string): Tree {
    if value == "null" then Word("null") else Number(false, value, "", "")
  }

  function TurnMember(value: string): Member {
    Member("", "turn", "", Elem("", ValueTree(value), ""))
  }

  function ResponseDerivation(value: string): Tree {
    Obj("", [TurnMember(value)])
  }

  lemma Spelled(value: string)
    ensures "{" + ("" + ("" + ("\"" + ("turn" + "\"" + ("" + (":" + ("" + (value + ("" + ("}" + ""))))))))))
         == Response(value)
  {
    assert PREFIX == "{" + "\"" + "turn" + "\"" + ":";
  }

  lemma ResponseUnparse(value: string)
    ensures Unparse(ResponseDerivation(value)) == Response(value)
  {
    ObjectParts("", [TurnMember(value)], "");
    MembersFirst([TurnMember(value)], "}" + "");
    var t := Unparse(ResponseDerivation(value));
    assert t + "" == t;
    assert Unparse(ValueTree(value)) == value;
    assert t == "{" + ("" + ("" + ("\"" + ("turn" + "\"" + ("" + (":" + ("" + (value + ("" + ("}" + ""))))))))));
    Spelled(value);
  }

  lemma DerivesResponse(lead: string, value: string, trail: string)
    requires Blank(lead) && Blank(trail) && Grammatical(ValueTree(value))
    ensures Derives(ResponseDerivation(value), lead, trail, lead + Response(value) + trail)
  {
    PlainMeans("turn");
    assert GrammaticalMember(TurnMember(value));
    ResponseUnparse(value);
  }

  /** However a response is derived, it is the object of one pair that was printed. */
  lemma ReadsAs(lead: string, value: string, trail: string, t: Tree, pre: string, post: string)
    requires Blank(lead) && Blank(trail) && Grammatical(ValueTree(value))
    requires Derives(t, pre, post, lead + Response(value) + trail)
    ensures t == ResponseDerivation(value) && pre == lead && post == trail
  {
    DerivesResponse(lead, value, trail);
    DerivationUnique(t, pre, post, ResponseDerivation(value), lead, trail, lead + Response(value) + trail);
  }

  lemma {:induction false} NumberDecodes(n: nat, unescape: string -> string)
    ensures Digits(Decimal(n)) && Decimal(n) != "null"
    ensures var t := Number(false, Decimal(n), "", ""); Grammatical(t) && Value(t, unescape) == JInt(n)
  {
    DecimalDigits(n);
    DecimalRoundTrip(n);
    assert IsDigit(Decimal(n)[0]);
    if Decimal(n)[0] == '0' { assert |Decimal(0)| == 1; }
  }

  lemma ValueDecodes(offered: seq<int>, k: nat, unescape: string -> string)
    requires ValuesFor(offered).Ok? && k <= |offered|
    ensures k < |ValuesFor(offered).value|
    ensures var value := ValuesFor(offered).value[k];
            && Grammatical(ValueTree(value))
            && Value(ValueTree(value), unescape) == if k == 0 then JNull else JInt(offered[k - 1])
  {
    OfferValues(offered);
    if k > 0 { NumberDecodes(offered[k - 1], unescape); }
  }

  /** Each completed response is JSON, and every JSON reading of it decodes to the index, or the
      abstention, it was printed from. */
  lemma DecodesToOffer(offered: seq<int>, k: nat, lead: string, trail: string, unescape: string -> string)
    requires ValuesFor(offered).Ok? && k <= |offered| && Blank(lead) && Blank(trail) && unescape("turn") == "turn"
    ensures var text := lead + Response(ValuesFor(offered).value[k]) + trail;
            && IsJson(text)
            && forall t, pre, post | Derives(t, pre, post, text) ::
                 Decode(Value(t, unescape), offered) == Ok(if k == 0 then None else Some(offered[k - 1]))
  {
    var value := ValuesFor(offered).value[k];
    var text := lead + Response(value) + trail;
    ValueDecodes(offered, k, unescape);
    DerivesResponse(lead, value, trail);
    forall t, pre, post | Derives(t, pre, post, text)
      ensures Decode(Value(t, unescape), offered) == Ok(if k == 0 then None else Some(offered[k - 1]))
    {
      ReadsAs(lead, value, trail, t, pre, post);
      OnePair(t, TurnMember(value), unescape);
    }
  }
}
