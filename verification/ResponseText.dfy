/** The response that `_assemble_contract_response` spells, as JSON text. */
module ResponseText {
  import opened Common
  import opened ResponseMachine
  import opened JsonGrammar
  import opened JsonUnambiguous
  import opened JsonData
  import opened JsonValue
  import opened Classification
  import opened ResponseReading

  // ---- The assembled response ----

  /** The three keys of a response. */
  datatype Keys = Keys(items: string, id: string, verdict: string)

  const KEYS := Keys("items", "candidate_id", "verdict")

  ghost predicate PlainKeys(keys: Keys) {
    Plain(keys.items) && Plain(keys.id) && Plain(keys.verdict)
  }

  function ItemText(keys: Keys, row: Row): string {
    "{\"" + keys.id + "\": " + ("\"" + row.locator + "\"") + (", \"" + keys.verdict + "\": \"" + (row.verdict + "\"}"))
  }

  /** `", ".join(...)`. */
  function ItemsText(keys: Keys, rows: seq<Row>): string {
    if rows == [] then ""
    else ItemText(keys, rows[0]) + (if |rows| == 1 then "" else "," + (" " + ItemsText(keys, rows[1..])))
  }

  function TextWith(keys: Keys, rows: seq<Row>): string {
    "{\"" + keys.items + "\": [" + (ItemsText(keys, rows) + "]}")
  }

  /** `_assemble_contract_response`. */
  function AssembledText(rows: seq<Row>): string {
    TextWith(KEYS, rows)
  }

  function Entry(pre: string, key: string, value: Tree): Member {
    Member(pre, key, "", Elem(" ", value, ""))
  }

  function ItemTree(keys: Keys, row: Row): Tree {
    Obj("", [Entry("", keys.id, Str(row.locator)), Entry(" ", keys.verdict, Str(row.verdict))])
  }

  /** The items; every one but the first has a blank in front. */
  function ItemElems(keys: Keys, rows: seq<Row>, pre: string): (r: seq<Elem>)
    ensures |r| == |rows|
    ensures forall i | 0 <= i < |r| :: r[i].value == ItemTree(keys, rows[i]) && r[i].post == ""
    ensures forall i | 0 <= i < |r| :: r[i].pre == pre || r[i].pre == " "
  {
    if rows == [] then [] else [Elem(pre, ItemTree(keys, rows[0]), "")] + ItemElems(keys, rows[1..], " ")
  }

  function ListTree(key: string, elems: seq<Elem>): Tree {
    Obj("", [Entry("", key, Arr("", elems))])
  }

  function ResponseTree(keys: Keys, rows: seq<Row>): Tree {
    ListTree(keys.items, ItemElems(keys, rows, ""))
  }

  // ---- It unparses to the text ----

  lemma TwoMembers(m: Member, n: Member)
    ensures UnparseMembers([m, n]) == UnparseMember(m) + "," + UnparseMember(n)
    ensures UnparseMembers([m]) == UnparseMember(m)
  {
    assert [m, n][1..] == [n];
    assert UnparseMembers([n]) == UnparseMember(n) + "";
    AppendNothing(UnparseMember(n));
    AppendNothing(UnparseMember(m));
    AppendAssociates(UnparseMember(m), ",", UnparseMember(n));
  }

  lemma EntryText(pre: string, key: string, value: Tree)
    ensures UnparseMember(Entry(pre, key, value)) == pre + "\"" + key + "\": " + Unparse(value)
  {
    var u := Unparse(value);
    assert UnparseElem(Elem(" ", value, "")) == " " + u;
    assert pre + "\"" + key + "\"" + "" + ":" + (" " + u) == pre + "\"" + key + "\": " + u;
  }

  lemma ItemUnparse(keys: Keys, row: Row)
    ensures Unparse(ItemTree(keys, row)) == ItemText(keys, row)
  {
    var m, n := Entry("", keys.id, Str(row.locator)), Entry(" ", keys.verdict, Str(row.verdict));
    TwoMembers(m, n);
    EntryText("", keys.id, Str(row.locator));
    EntryText(" ", keys.verdict, Str(row.verdict));
  }

  lemma {:induction false} ItemsUnparse(keys: Keys, rows: seq<Row>, pre: string)
    requires rows != []
    ensures UnparseElems(ItemElems(keys, rows, pre)) == pre + ItemsText(keys, rows)
  {
    var elems := ItemElems(keys, rows, pre);
    ItemUnparse(keys, rows[0]);
    AppendNothing(pre + ItemText(keys, rows[0]));
    assert UnparseElem(elems[0]) == pre + ItemText(keys, rows[0]);
    if |rows| == 1 {
      AppendNothing(ItemText(keys, rows[0]));
    } else {
      ItemsUnparse(keys, rows[1..], " ");
      assert elems[1..] == ItemElems(keys, rows[1..], " ");
      AppendAssociates(pre, ItemText(keys, rows[0]), "," + (" " + ItemsText(keys, rows[1..])));
    }
  }

  lemma Bracketed(key: string, body: string)
    ensures "{" + "" + ("" + "\"" + key + "\": " + ("[" + "" + ("" + body) + "]")) + "}"
         == "{\"" + key + "\": [" + (body + "]}")
    ensures "" + body == body
  {
  }

  lemma ResponseUnparse(keys: Keys, rows: seq<Row>)
    ensures Unparse(ResponseTree(keys, rows)) == TextWith(keys, rows)
  {
    var list := Arr("", ItemElems(keys, rows, ""));
    TwoMembers(Entry("", keys.items, list), Entry("", keys.items, list));
    EntryText("", keys.items, list);
    if rows != [] { ItemsUnparse(keys, rows, ""); }
    Bracketed(keys.items, ItemsText(keys, rows));
  }

  // ---- It is grammatical ----

  ghost predicate PlainRows(rows: seq<Row>) {
    forall i | 0 <= i < |rows| :: Plain(rows[i].locator) && Plain(rows[i].verdict)
  }

  lemma EntryGrammatical(pre: string, key: string, value: string)
    requires Blank(pre) && Plain(key) && Plain(value)
    ensures GrammaticalMember(Entry(pre, key, Str(value)))
  {
    PlainMeans(key);
    PlainMeans(value);
  }

  lemma ItemGrammatical(keys: Keys, row: Row)
    requires PlainKeys(keys) && Plain(row.locator) && Plain(row.verdict)
    ensures Grammatical(ItemTree(keys, row))
  {
    EntryGrammatical("", keys.id, row.locator);
    EntryGrammatical(" ", keys.verdict, row.verdict);
  }

  lemma ListGrammatical(key: string, elems: seq<Elem>)
    requires IsStringBody(key) && forall e | e in elems :: GrammaticalElem(e)
    ensures Grammatical(ListTree(key, elems))
  {
    assert Grammatical(Arr("", elems));
  }

  lemma ResponseGrammatical(keys: Keys, rows: seq<Row>)
    requires PlainKeys(keys) && PlainRows(rows)
    ensures Grammatical(ResponseTree(keys, rows))
  {
    var elems := ItemElems(keys, rows, "");
    forall e | e in elems ensures GrammaticalElem(e) {
      var i :| 0 <= i < |elems| && elems[i] == e;
      ItemGrammatical(keys, rows[i]);
    }
    PlainMeans(keys.items);
    ListGrammatical(keys.items, elems);
  }

  // ---- It reads as the rows ----

  /** What unescaping does to strings without escapes: nothing. */
  ghost predicate LeavesPlain(unescape: string -> string) {
    forall v | Plain(v) :: unescape(v) == v
  }

  lemma KeysPlain()
    ensures PlainKeys(KEYS)
  {
  }

  lemma ItemReads(row: Row, unescape: string -> string)
    requires Plain(row.locator) && Plain(row.verdict) && LeavesPlain(unescape)
    ensures RowOf(Value(ItemTree(KEYS, row), unescape)) == Some(row)
    ensures Unrepeated(Value(ItemTree(KEYS, row), unescape))
  {
    var m, n := Entry("", KEYS.id, Str(row.locator)), Entry(" ", KEYS.verdict, Str(row.verdict));
    TwoPairs(ItemTree(KEYS, row), m, n, unescape);
    KeysPlain();
  }

  lemma ListReads(key: string, elems: seq<Elem>, unescape: string -> string)
    requires LeavesPlain(unescape) && Plain(key)
    ensures Value(ListTree(key, elems), unescape) == JObject([(key, JArray(Items(elems, unescape)))])
  {
    OnePair(ListTree(key, elems), Entry("", key, Arr("", elems)), unescape);
  }

  lemma OneUnrepeated(key: string, items: seq<Json>)
    requires forall i | 0 <= i < |items| :: Unrepeated(items[i])
    ensures Unrepeated(JObject([(key, JArray(items))]))
  {
    assert Unrepeated(JArray(items));
  }

  lemma ResponseReads(rows: seq<Row>, unescape: string -> string)
    requires LeavesPlain(unescape) && PlainRows(rows)
    ensures var parsed := Value(ResponseTree(KEYS, rows), unescape);
            && Unrepeated(parsed) && ItemsOf(parsed).Some?
            && WellFormed(ItemsOf(parsed).value) == rows && |ItemsOf(parsed).value| == |rows|
  {
    var elems := ItemElems(KEYS, rows, "");
    var items := Items(elems, unescape);
    forall i | 0 <= i < |rows| ensures RowOf(items[i]) == Some(rows[i]) && Unrepeated(items[i]) {
      ItemAt(elems, unescape, i);
      ItemReads(rows[i], unescape);
    }
    KeysPlain();
    ListReads(KEYS.items, elems, unescape);
    OneUnrepeated("items", items);
  }

  lemma AssembledPlain(verdicts: seq<string>)
    requires |verdicts| <= MAX_BATCH && forall v | v in verdicts :: IsVerdict(v)
    ensures PlainRows(Assemble(verdicts))
  {
    forall i | 0 <= i < |verdicts| ensures Plain(Locator(i + 1)) && Plain(verdicts[i]) {
      assert verdicts[i] in verdicts && IsVerdict(verdicts[i]);
    }
  }

  // ---- The round trip ----

  lemma DerivesPlainly(tree: Tree, text: string)
    requires Grammatical(tree) && Unparse(tree) == text
    ensures Derives(tree, "", "", text)
  {
    AppendNothing(text);
  }

  /** The text is JSON in one way only. */
  lemma TextDerives(keys: Keys, rows: seq<Row>)
    requires PlainKeys(keys) && PlainRows(rows)
    ensures IsJson(TextWith(keys, rows))
    ensures forall t, pre, post | Derives(t, pre, post, TextWith(keys, rows)) :: t == ResponseTree(keys, rows)
  {
    var tree, text := ResponseTree(keys, rows), TextWith(keys, rows);
    ResponseGrammatical(keys, rows);
    ResponseUnparse(keys, rows);
    DerivesPlainly(tree, text);
    forall t, pre, post | Derives(t, pre, post, text) ensures t == tree {
      DerivationUnique(t, pre, post, tree, "", "", text);
    }
  }

  /** What reads as rows that decode, decodes as they do. */
  lemma RowsDecode(parsed: Json, rows: seq<Row>, ids: seq<string>)
    requires Unrepeated(parsed) && ItemsOf(parsed).Some?
    requires WellFormed(ItemsOf(parsed).value) == rows && |ItemsOf(parsed).value| == |rows|
    requires Decode(rows, ids).Ok?
    ensures DecodeJson(parsed, ids) == Ok(Decode(rows, ids).value)
  {
    DecodesPermutations(rows, ids);
    ReadsPermutations(parsed, ids);
  }

  /** Round trip: decoding the assembled text, however it is read as JSON, gives the given verdicts
      for the given candidates, nothing displaced. */
  lemma AssembledDecodes(verdicts: seq<string>, ids: seq<string>, unescape: string -> string, t: Tree, pre: string,
                         post: string)
    requires ValidIds(ids) && |verdicts| == |ids| && (forall v | v in verdicts :: IsVerdict(v)) && LeavesPlain(unescape)
    ensures IsJson(AssembledText(Assemble(verdicts)))
    ensures Derives(t, pre, post, AssembledText(Assemble(verdicts))) ==>
      var r := DecodeJson(Value(t, unescape), ids);
      r.Ok? && r.value.counts.outOfOrder == 0 && Spelled(verdicts, ids, r.value.items)
  {
    var rows := Assemble(verdicts);
    AssembledPlain(verdicts);
    KeysPlain();
    TextDerives(KEYS, rows);
    AssembleRoundTrip(verdicts, ids);
    ResponseReads(rows, unescape);
    RowsDecode(Value(ResponseTree(KEYS, rows), unescape), rows, ids);
  }

  /** A parser that reads every JSON text as the value of its derivation. */
  ghost predicate ReadsJson(parse: string -> Option<Json>, unescape: string -> string) {
    forall t, pre, post, text | Derives(t, pre, post, text) :: parse(text) == Some(Value(t, unescape))
  }

  /** The same round trip through such a parser. */
  lemma AssembledParses(verdicts: seq<string>, ids: seq<string>, parse: string -> Option<Json>,
                        unescape: string -> string)
    requires ValidIds(ids) && |verdicts| == |ids| && forall v | v in verdicts :: IsVerdict(v)
    requires LeavesPlain(unescape) && ReadsJson(parse, unescape)
    ensures var parsed := parse(AssembledText(Assemble(verdicts)));
            && parsed.Some? && DecodeJson(parsed.value, ids).Ok?
            && Spelled(verdicts, ids, DecodeJson(parsed.value, ids).value.items)
  {
    var text := AssembledText(Assemble(verdicts));
    AssembledDecodes(verdicts, ids, unescape, ResponseTree(KEYS, Assemble(verdicts)), "", "");
    var t, pre, post :| Derives(t, pre, post, text);
    AssembledDecodes(verdicts, ids, unescape, t, pre, post);
    assert parse(text) == Some(Value(t, unescape));
  }
}
