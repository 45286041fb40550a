/** `structured_decoding`: the machine behind the note response contract, against the printer
    of the documents it is meant to accept. */
module NoteContract {
  import opened Common
  import opened ResponseMachine
  import JsonGrammar

  /** The two ceilings: 8 items and 3 fragment IDs in the registered contract. */
  datatype Limits = Limits(maxItems: nat, maxIds: nat)

  const REGISTERED := Limits(8, 3)

  const ITEM_FIELDS: nat := 5
  const ID_FIELD: nat := 1

  function FieldName(index: nat): string {
    if index == 0 then "candidate_id"
    else if index == 1 then "source_fragment_ids"
    else if index == 2 then "citation"
    else if index == 3 then "label"
    else "claim"
  }

  datatype State =
    | Pre
    | Lit(text: string, index: nat, cont: State)
    | Free(cont: State)
    | Items(taken: nat)
    | Ids(item: nat, count: nat)
    | IdMore(item: nat, count: nat)
    | ItemEnd(item: nat)
    | Done

  /** Neither a quote, nor a backslash, nor a control character. */
  predicate Allowed(c: char) {
    c != '"' && c != '\\' && c >= ' '
  }

  function Opening(index: nat): (r: string)
    requires index < ITEM_FIELDS
    ensures r != []
  {
    (if index == 0 then "" else ",") + "\"" + FieldName(index) + ("\":" + (if index == ID_FIELD then "[" else "\""))
  }

  /** `_field_state`. */
  function FieldState(item: nat, index: nat): State
    decreases item, ITEM_FIELDS - index
  {
    if index >= ITEM_FIELDS then Lit("}", 0, ItemEnd(item))
    else if index == ID_FIELD then Lit(Opening(index), 0, Ids(item, 0))
    else Lit(Opening(index), 0, Free(FieldState(item, index + 1)))
  }

  const HEAD := "{\"items\":["

  /** `step`. A literal is never stepped past its end: `Sound` below holds of every state reached. */
  function Step(l: Limits, s: State, c: char): Option<State> {
    match s
    case Pre =>
      if IsBlank(c) then Some(s) else LiteralStep(HEAD, 0, Items(0), Lit(HEAD, 1, Items(0)), c)
    case Lit(text, index, cont) => LiteralStep(text, index, cont, Lit(text, index + 1, cont), c)
    case Free(cont) =>
      if c == '"' then Some(cont) else if !Allowed(c) then None else Some(s)
    case Items(taken) =>
      if c == ']' && taken == 0 then Some(Lit("}", 0, Done))
      else if c == '{' && taken < l.maxItems then Some(FieldState(taken + 1, 0))
      else None
    case Ids(item, count) =>
      if c == '"' && count < l.maxIds then Some(Free(IdMore(item, count + 1))) else None
    case IdMore(item, count) =>
      if c == ',' && count < l.maxIds then Some(Ids(item, count))
      else if c == ']' then Some(FieldState(item, ID_FIELD + 1))
      else None
    case ItemEnd(item) =>
      if c == ',' && item < l.maxItems then Some(Items(item))
      else if c == ']' then Some(Lit("}", 0, Done))
      else None
    case Done =>
      if IsBlank(c) then Some(s) else None
  }

  function NoteMachine(l: Limits): Machine<State> {
    Machine((s, c) => Step(l, s, c), Pre, Done)
  }

  // ---- The documents, and how they are printed ----

  datatype Item = Item(candidateId: string, fragmentIds: seq<string>, citation: string, tag: string, claim: string)

  /** What a JSON string may hold, written without a backslash. */
  ghost predicate FreeText(v: string) {
    JsonGrammar.IsStringBody(v) && '\\' !in v
  }

  /** The machine's free text is that, character by character. */
  lemma {:induction false} FreeTextAllowed(v: string)
    ensures FreeText(v) <==> forall i | 0 <= i < |v| :: Allowed(v[i])
  {
    if v != [] {
      FreeTextAllowed(v[1..]);
      assert v == [v[0]] + v[1..];
    }
  }

  ghost predicate ValidItem(l: Limits, item: Item) {
    && FreeText(item.candidateId) && FreeText(item.citation) && FreeText(item.tag) && FreeText(item.claim)
    && 1 <= |item.fragmentIds| <= l.maxIds
    && forall id | id in item.fragmentIds :: FreeText(id)
  }

  ghost predicate ValidItems(l: Limits, items: seq<Item>) {
    |items| <= l.maxItems && forall item | item in items :: ValidItem(l, item)
  }

  function PrintIds(ids: seq<string>): string {
    if ids == [] then ""
    else "\"" + ids[0] + "\"" + (if |ids| == 1 then "" else "," + PrintIds(ids[1..]))
  }

  function FieldValue(item: Item, index: nat): string {
    if index == 0 then item.candidateId
    else if index == 2 then item.citation
    else if index == 3 then item.tag
    else item.claim
  }

  /** The fields of an item from `index` on, with its closing brace. */
  function PrintFields(item: Item, index: nat): string
    decreases item, ITEM_FIELDS - index
  {
    if index >= ITEM_FIELDS then "}"
    else if index == ID_FIELD then Opening(index) + PrintIds(item.fragmentIds) + "]" + PrintFields(item, index + 1)
    else Opening(index) + FieldValue(item, index) + "\"" + PrintFields(item, index + 1)
  }

  function PrintItems(items: seq<Item>): string {
    if items == [] then ""
    else "{" + PrintFields(items[0], 0) + (if |items| == 1 then "" else "," + PrintItems(items[1..]))
  }

  function Document(items: seq<Item>): string {
    HEAD + PrintItems(items) + "]}"
  }

  // ---- How they are spelled ----

  lemma {:induction false} IdsSpelled(ids: seq<string>, id: string)
    ensures PrintIds([id]) == "\"" + id + "\""
    ensures ids != [] ==> PrintIds(ids + [id]) == PrintIds(ids) + "," + ("\"" + id + "\"")
  {
    AppendNothing("\"" + id + "\"");
    if ids != [] {
      var first := "\"" + ids[0] + "\"";
      assert (ids + [id])[1..] == ids[1..] + [id];
      if |ids| == 1 {
        assert ids[1..] + [id] == [id];
        AppendNothing(first);
      } else {
        IdsSpelled(ids[1..], id);
      }
    }
  }

  lemma {:induction false} ItemsSpelled(items: seq<Item>, item: Item)
    ensures PrintItems([item]) == "{" + PrintFields(item, 0)
    ensures items != [] ==> PrintItems(items + [item]) == PrintItems(items) + "," + ("{" + PrintFields(item, 0))
  {
    AppendNothing("{" + PrintFields(item, 0));
    if items != [] {
      var first := "{" + PrintFields(items[0], 0);
      assert (items + [item])[1..] == items[1..] + [item];
      if |items| == 1 {
        assert items[1..] + [item] == [item];
        AppendNothing(first);
      } else {
        ItemsSpelled(items[1..], item);
      }
    }
  }

  lemma FirstOpenings()
    ensures Opening(0) == "\"candidate_id\":\"" && Opening(1) == ",\"source_fragment_ids\":["
  {
  }

  lemma LastOpenings()
    ensures Opening(2) == ",\"citation\":\"" && Opening(3) == ",\"label\":\"" && Opening(4) == ",\"claim\":\""
  {
  }

  lemma FieldsSpelled(item: Item, index: nat)
    requires index < ITEM_FIELDS
    ensures PrintFields(item, ITEM_FIELDS) == "}"
    ensures index == ID_FIELD ==>
      PrintFields(item, index) == Opening(index) + PrintIds(item.fragmentIds) + "]" + PrintFields(item, index + 1)
    ensures index != ID_FIELD ==>
      PrintFields(item, index) == Opening(index) + FieldValue(item, index) + "\"" + PrintFields(item, index + 1)
  {
  }

  /** An item, written out: five fields, in this order and under these names. */
  lemma ItemSpelled(item: Item)
    ensures PrintFields(item, 0)
      == "\"candidate_id\":\"" + item.candidateId + "\""
       + (",\"source_fragment_ids\":[" + PrintIds(item.fragmentIds) + "]"
       + (",\"citation\":\"" + item.citation + "\""
       + (",\"label\":\"" + item.tag + "\"" + (",\"claim\":\"" + item.claim + "\"" + "}"))))
  {
    FirstOpenings();
    LastOpenings();
    FieldsSpelled(item, 0);
    FieldsSpelled(item, 1);
    FieldsSpelled(item, 2);
    FieldsSpelled(item, 3);
    FieldsSpelled(item, 4);
  }
}
