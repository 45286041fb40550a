/** `title_decoding`: the machine that completes exactly one response per offered turn, and one
    abstention, even when one offered index is a decimal prefix of another. */
module TitleContract {
  import opened Common
  import opened ResponseMachine
  import opened Decimals

  datatype State = Pre | Lit(text: string, index: nat, cont: State) | Val(prefix: string) | Done

  datatype OfferError = NothingOffered | OfferNotDistinctNonNegative

  const PREFIX := "{\"turn\":"

  /** `values_for`. */
  function ValuesFor(offered: seq<int>): Result<seq<string>, OfferError> {
    if offered == [] then Refused(NothingOffered)
    else if !Distinct(offered) || exists i | i in offered :: i < 0 then Refused(OfferNotDistinctNonNegative)
    else
      Ok(["null"]
         + seq(|offered|, i requires 0 <= i < |offered| => Decimal(if offered[i] < 0 then 0 else offered[i])))
  }

  /** Offers are refused exactly when there is none, or when one is repeated or negative. */
  lemma OffersAccepted(offered: seq<int>)
    ensures ValuesFor(offered).Ok? <==>
      offered != [] && Distinct(offered) && forall i | 0 <= i < |offered| :: offered[i] >= 0
    ensures ValuesFor(offered) == Refused(NothingOffered) <==> offered == []
  {
    assert forall i | 0 <= i < |offered| :: offered[i] in offered;
  }

  function Step(values: seq<string>, s: State, c: char): Option<State> {
    match s
    case Pre =>
      if IsBlank(c) then Some(s) else LiteralStep(PREFIX, 0, Val(""), Lit(PREFIX, 1, Val("")), c)
    case Lit(text, index, cont) => LiteralStep(text, index, cont, Lit(text, index + 1, cont), c)
    case Val(prefix) =>
      if c == '}' && prefix in values then Some(Done)
      else if exists value | value in values :: prefix + [c] <= value then Some(Val(prefix + [c]))
      else None
    case Done =>
      if IsBlank(c) then Some(s) else None
  }

  function TitleMachine(values: seq<string>): Machine<State> {
    Machine((s, c) => Step(values, s, c), Pre, Done)
  }

  function Response(value: string): string {
    PREFIX + value + "}"
  }

  /** `language`. */
  function Language(values: seq<string>): (r: seq<string>)
    ensures |r| == |values|
  {
    seq(|values|, i requires 0 <= i < |values| => Response(values[i]))
  }

  // ---- What values look like ----

  ghost predicate Closed(values: seq<string>) {
    values != [] && forall v | v in values :: v != [] && '}' !in v
  }

  lemma DecimalIsPlain(n: nat)
    ensures Decimal(n) != [] && '}' !in Decimal(n) && Decimal(n) != "null"
  {
    DecimalDigits(n);
    assert "null"[0] == 'n';
  }

  lemma OfferSpelled(offered: seq<int>, i: nat)
    requires ValuesFor(offered).Ok? && i < |offered|
    ensures |ValuesFor(offered).value| == |offered| + 1
    ensures offered[i] >= 0 && ValuesFor(offered).value[i + 1] == Decimal(offered[i])
  {
    assert offered[i] in offered;
  }

  lemma OffersDiffer(offered: seq<int>, i: nat, j: nat)
    requires ValuesFor(offered).Ok? && i < j <= |offered|
    ensures j < |ValuesFor(offered).value| && ValuesFor(offered).value[i] != ValuesFor(offered).value[j]
  {
    OfferSpelled(offered, j - 1);
    if i == 0 {
      DecimalIsPlain(offered[j - 1]);
    } else {
      OfferSpelled(offered, i - 1);
      DecimalsDiffer(offered[i - 1], offered[j - 1]);
    }
  }

  /** The spellings offered: `null` first, then each index in decimal, all different. */
  lemma OfferValues(offered: seq<int>)
    requires ValuesFor(offered).Ok?
    ensures Closed(ValuesFor(offered).value) && |ValuesFor(offered).value| == |offered| + 1
    ensures Distinct(ValuesFor(offered).value)
    ensures forall i | 0 <= i < |offered| :: offered[i] >= 0 && ValuesFor(offered).value[i + 1] == Decimal(offered[i])
  {
    var values := ValuesFor(offered).value;
    forall i | 0 <= i < |offered| ensures offered[i] >= 0 && values[i + 1] == Decimal(offered[i]) {
      OfferSpelled(offered, i);
    }
    forall i | 0 <= i < |values| ensures values[i] != [] && '}' !in values[i] {
      if i > 0 { DecimalIsPlain(offered[i - 1]); }
    }
    forall i, j | 0 <= i < j < |values| ensures values[i] != values[j] {
      OffersDiffer(offered, i, j);
    }
  }

  lemma ResponseInjective(v: string, w: string)
    ensures Response(v) == Response(w) ==> v == w
  {
    var a, b := Response(v), Response(w);
    assert a[|PREFIX|..|a| - 1] == v && b[|PREFIX|..|b| - 1] == w;
  }

  /** The n + 1 responses are distinct. */
  lemma LanguageDistinct(offered: seq<int>)
    requires ValuesFor(offered).Ok?
    ensures |Language(ValuesFor(offered).value)| == |offered| + 1
    ensures Distinct(Language(ValuesFor(offered).value))
  {
    OfferValues(offered);
    var values := ValuesFor(offered).value;
    forall i, j | 0 <= i < j < |values| ensures Response(values[i]) != Response(values[j]) {
      ResponseInjective(values[i], values[j]);
    }
  }
}
