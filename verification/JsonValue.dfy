/** The values that JSON derivations stand for. */
module JsonValue {
  import opened JsonGrammar
  import opened Decimals
  import opened JsonData

  function Items(elems: seq<Elem>, unescape: string -> string): (r: seq<Json>)
    ensures |r| == |elems|
  {
    if elems == [] then [] else [Value(elems[0].value, unescape)] + Items(elems[1..], unescape)
  }

  function Pairs(members: seq<Member>, unescape: string -> string): (r: seq<(string, Json)>)
    ensures |r| == |members|
  {
    if members == [] then []
    else [(unescape(members[0].key), Value(members[0].elem.value, unescape))] + Pairs(members[1..], unescape)
  }

  /** The parsed value of a derivation; `unescape` resolves backslash escapes. */
  function Value(t: Tree, unescape: string -> string): Json {
    match t
    case Word(text) => if text == "null" then JNull else JOther
    case Number(minus, digits, fraction, exponent) =>
      if fraction == [] && exponent == [] && IsDigits(digits) then
        JInt(if minus then 0 - ValueOf(digits) else ValueOf(digits))
      else JOther
    case Str(raw) => JString(unescape(raw))
    case Arr(_, elems) => JArray(Items(elems, unescape))
    case Obj(_, members) => JObject(Pairs(members, unescape))
  }

  lemma {:induction false} ItemAt(elems: seq<Elem>, unescape: string -> string, k: nat)
    requires k < |elems|
    ensures Items(elems, unescape)[k] == Value(elems[k].value, unescape)
  {
    if k == 0 {
    } else {
      ItemAt(elems[1..], unescape, k - 1);
    }
  }

  lemma OnePair(t: Tree, m: Member, unescape: string -> string)
    requires t.Obj? && t.members == [m]
    ensures Value(t, unescape) == JObject([(unescape(m.key), Value(m.elem.value, unescape))])
  {
    assert Pairs(t.members[1..], unescape) == [];
  }

  lemma TwoPairs(t: Tree, m: Member, n: Member, unescape: string -> string)
    requires t.Obj? && t.members == [m, n]
    ensures Value(t, unescape)
         == JObject([(unescape(m.key), Value(m.elem.value, unescape)),
                     (unescape(n.key), Value(n.elem.value, unescape))])
  {
    assert t.members[1..] == [n] && [n][1..] == [];
    assert Pairs([n], unescape) == [(unescape(n.key), Value(n.elem.value, unescape))];
  }
}
