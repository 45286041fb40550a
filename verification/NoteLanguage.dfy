/** The language of the note machine: exactly the printed documents, each with one reading. */
module NoteLanguage {
  import opened Common
  import opened ResponseMachine
  import opened NoteContract

  ghost predicate Accepts(l: Limits, s: State, text: string) {
    NoteMachine(l).Run(s, text) == Some(Done)
  }

  // ---- One literal, one free text ----

  lemma {:induction false} LiteralRead(l: Limits, text: string, index: nat, cont: State)
    requires index < |text|
    ensures NoteMachine(l).Run(Lit(text, index, cont), text[index..]) == Some(cont)
    decreases |text| - index
  {
    assert text[index..][1..] == text[index + 1..];
    if index + 1 < |text| {
      LiteralRead(l, text, index + 1, cont);
    }
  }

  lemma {:induction false} FreeRead(l: Limits, v: string, cont: State)
    requires FreeText(v)
    ensures NoteMachine(l).Run(Free(cont), v + "\"") == Some(cont)
  {
    if v != [] {
      assert (v + "\"")[1..] == v[1..] + "\"";
      FreeRead(l, v[1..], cont);
    } else {
      assert v + "\"" == "\"";
      assert "\""[1..] == [];
    }
  }

  lemma {:induction false} LiteralNeeded(l: Limits, text: string, index: nat, cont: State, input: string)
    returns (rest: string)
    requires index < |text|
    requires Accepts(l, Lit(text, index, cont), input)
    ensures input == text[index..] + rest && Accepts(l, cont, rest)
    decreases |text| - index
  {
    assert input == [input[0]] + input[1..];
    if index + 1 < |text| {
      rest := LiteralNeeded(l, text, index + 1, cont, input[1..]);
      assert text[index..] == [text[index]] + text[index + 1..];
    } else {
      rest := input[1..];
    }
  }

  lemma {:induction false} FreeNeeded(l: Limits, cont: State, input: string) returns (v: string, rest: string)
    requires Accepts(l, Free(cont), input)
    ensures FreeText(v) && input == v + "\"" + rest && Accepts(l, cont, rest)
  {
    assert input == [input[0]] + input[1..];
    if input[0] == '"' {
      v, rest := [], input[1..];
    } else {
      v, rest := FreeNeeded(l, cont, input[1..]);
      v := [input[0]] + v;
    }
  }

  // ---- Every printed document is completed ----

  lemma OneRead(l: Limits, s: State, c: char, t: State)
    requires Step(l, s, c) == Some(t)
    ensures NoteMachine(l).Run(s, [c]) == Some(t)
  {
    assert [c][1..] == [];
  }

  lemma {:induction false} IdsRead(l: Limits, item: nat, count: nat, ids: seq<string>)
    requires ids != [] && count + |ids| <= l.maxIds && forall id | id in ids :: FreeText(id)
    ensures NoteMachine(l).Run(Ids(item, count), PrintIds(ids)) == Some(IdMore(item, count + |ids|))
    decreases |ids|
  {
    var m := NoteMachine(l);
    var after := Free(IdMore(item, count + 1));
    OneRead(l, Ids(item, count), '"', after);
    m.Chain(Ids(item, count), "\"", after, ids[0] + "\"");
    FreeRead(l, ids[0], IdMore(item, count + 1));
    var first := "\"" + ids[0] + "\"";
    assert first == "\"" + (ids[0] + "\"");
    if |ids| > 1 {
      m.Chain(Ids(item, count), first, IdMore(item, count + 1), "," + PrintIds(ids[1..]));
      OneRead(l, IdMore(item, count + 1), ',', Ids(item, count + 1));
      m.Chain(IdMore(item, count + 1), ",", Ids(item, count + 1), PrintIds(ids[1..]));
      IdsRead(l, item, count + 1, ids[1..]);
    } else {
      assert first + "" == first;
    }
  }

  /** A free-text field: its opening literal, its value, the closing quote, and what follows. */
  lemma FreeFieldRead(l: Limits, opening: string, v: string, next: State, tail: string)
    requires opening != [] && FreeText(v)
    ensures NoteMachine(l).Run(Lit(opening, 0, Free(next)), opening + v + "\"" + tail)
         == NoteMachine(l).Run(next, tail)
  {
    var m := NoteMachine(l);
    var s := Lit(opening, 0, Free(next));
    LiteralRead(l, opening, 0, Free(next));
    assert opening[0..] == opening;
    m.Chain(s, opening, Free(next), v + "\"");
    FreeRead(l, v, next);
    assert opening + v + "\"" == opening + (v + "\"");
    m.Chain(s, opening + v + "\"", next, tail);
  }

  lemma IdFieldRead(l: Limits, opening: string, n: nat, ids: seq<string>, tail: string)
    requires opening != [] && 1 <= |ids| <= l.maxIds && forall id | id in ids :: FreeText(id)
    ensures NoteMachine(l).Run(Lit(opening, 0, Ids(n, 0)), opening + PrintIds(ids) + "]" + tail)
         == NoteMachine(l).Run(FieldState(n, ID_FIELD + 1), tail)
  {
    var m := NoteMachine(l);
    var s := Lit(opening, 0, Ids(n, 0));
    LiteralRead(l, opening, 0, Ids(n, 0));
    assert opening[0..] == opening;
    m.Chain(s, opening, Ids(n, 0), PrintIds(ids));
    IdsRead(l, n, 0, ids);
    m.Chain(s, opening + PrintIds(ids), IdMore(n, |ids|), "]");
    OneRead(l, IdMore(n, |ids|), ']', FieldState(n, ID_FIELD + 1));
    m.Chain(s, opening + PrintIds(ids) + "]", FieldState(n, ID_FIELD + 1), tail);
  }

  lemma {:induction false} FieldsRead(l: Limits, n: nat, item: Item, index: nat)
    requires ValidItem(l, item)
    ensures NoteMachine(l).Run(FieldState(n, index), PrintFields(item, index)) == Some(ItemEnd(n))
    decreases ITEM_FIELDS - index
  {
    if index >= ITEM_FIELDS {
      OneRead(l, Lit("}", 0, ItemEnd(n)), '}', ItemEnd(n));
    } else {
      FieldsRead(l, n, item, index + 1);
      var tail := PrintFields(item, index + 1);
      if index == ID_FIELD {
        IdFieldRead(l, Opening(index), n, item.fragmentIds, tail);
      } else {
        FreeFieldRead(l, Opening(index), FieldValue(item, index), FieldState(n, index + 1), tail);
      }
    }
  }

  lemma ItemRead(l: Limits, n: nat, item: Item)
    requires n < l.maxItems && ValidItem(l, item)
    ensures NoteMachine(l).Run(Items(n), "{" + PrintFields(item, 0)) == Some(ItemEnd(n + 1))
  {
    OneRead(l, Items(n), '{', FieldState(n + 1, 0));
    NoteMachine(l).Chain(Items(n), "{", FieldState(n + 1, 0), PrintFields(item, 0));
    FieldsRead(l, n + 1, item, 0);
  }

  lemma {:induction false} ItemsRead(l: Limits, n: nat, items: seq<Item>)
    requires items != [] && n + |items| <= l.maxItems && forall item | item in items :: ValidItem(l, item)
    ensures NoteMachine(l).Run(Items(n), PrintItems(items)) == Some(ItemEnd(n + |items|))
    decreases |items|
  {
    var m := NoteMachine(l);
    var fields := PrintFields(items[0], 0);
    ItemRead(l, n, items[0]);
    if |items| > 1 {
      var rest := PrintItems(items[1..]);
      m.Chain(Items(n), "{" + fields, ItemEnd(n + 1), "," + rest);
      OneRead(l, ItemEnd(n + 1), ',', Items(n + 1));
      m.Chain(ItemEnd(n + 1), ",", Items(n + 1), rest);
      ItemsRead(l, n + 1, items[1..]);
    } else {
      assert "{" + fields + "" == "{" + fields;
    }
  }

  lemma {:induction false} BlankRead(l: Limits, s: State, blank: string)
    requires (s == Pre || s == Done) && Blank(blank)
    ensures NoteMachine(l).Run(s, blank) == Some(s)
  {
    if blank == [] {
    } else {
      BlankRead(l, s, blank[1..]);
    }
  }

  lemma HeadRead(l: Limits)
    ensures NoteMachine(l).Run(Pre, HEAD) == Some(Items(0))
  {
    LiteralRead(l, HEAD, 0, Items(0));
    assert HEAD[0..] == HEAD;
  }

  lemma CloseRead(l: Limits, item: nat)
    ensures NoteMachine(l).Run(Items(0), "]}") == Some(Done)
    ensures NoteMachine(l).Run(ItemEnd(item), "]}") == Some(Done)
  {
    OneRead(l, Items(0), ']', Lit("}", 0, Done));
    OneRead(l, ItemEnd(item), ']', Lit("}", 0, Done));
    NoteMachine(l).Chain(Items(0), "]", Lit("}", 0, Done), "}");
    NoteMachine(l).Chain(ItemEnd(item), "]", Lit("}", 0, Done), "}");
    OneRead(l, Lit("}", 0, Done), '}', Done);
    assert "]" + "}" == "]}";
  }

  /** Strings the machine reads from its start to the list, and from the end of a list to done. */
  lemma PartsRead(l: Limits, lead: string, head: string, items: seq<Item>, close: string, trail: string)
    requires Blank(lead) && Blank(trail) && ValidItems(l, items)
    requires NoteMachine(l).Run(Pre, head) == Some(Items(0))
    requires NoteMachine(l).Run(if items == [] then Items(0) else ItemEnd(|items|), close) == Some(Done)
    ensures NoteMachine(l).Complete(lead + (head + PrintItems(items) + close) + trail)
  {
    var m := NoteMachine(l);
    var body := PrintItems(items);
    var end := if items == [] then Items(0) else ItemEnd(|items|);
    BlankRead(l, Pre, lead);
    m.Chain(Pre, lead, Pre, head + body + close);
    if items != [] { ItemsRead(l, 0, items); }
    m.Chain(Pre, head, Items(0), body);
    m.Chain(Pre, head + body, end, close);
    m.Chain(Pre, lead + (head + body + close), Done, trail);
    BlankRead(l, Done, trail);
  }

  /** Completeness: a printed document with blanks around it is completed. */
  lemma PrintedIsComplete(l: Limits, lead: string, items: seq<Item>, trail: string)
    requires Blank(lead) && Blank(trail) && ValidItems(l, items)
    ensures NoteMachine(l).Complete(lead + Document(items) + trail)
  {
    HeadRead(l);
    CloseRead(l, |items|);
    PartsRead(l, lead, HEAD, items, "]}", trail);
  }

  // ---- Nothing else is completed ----

  lemma {:induction false} BlankNeeded(l: Limits, input: string)
    requires Accepts(l, Done, input)
    ensures Blank(input)
  {
    if input == [] {
    } else {
      BlankNeeded(l, input[1..]);
      assert input == [input[0]] + input[1..];
    }
  }

  lemma Regroup2(a: string, b: string, c: string, d: string, e: string, f: string, g: string)
    ensures a + (b + c + (d + (e + f + g))) == a + b + c + (d + e) + f + g
    ensures c == "" ==> a + (b + (d + (e + f + g))) == a + b + (d + e) + f + g
    ensures a + (b + c + (e + f + g)) == a + b + c + e + f + g
    ensures d == e == "" ==> a + (b + c + (f + g)) == a + b + c + "" + f + g
    ensures c == d == e == "" ==> a + (b + (f + g)) == a + b + "" + f + g
  {
  }

  lemma {:induction false} IdsNeeded(l: Limits, n: nat, count: nat, input: string)
    returns (ids: seq<string>, rest: string)
    requires Accepts(l, Ids(n, count), input)
    ensures ids != [] && count + |ids| <= l.maxIds && forall id | id in ids :: FreeText(id)
    ensures input == PrintIds(ids) + "]" + rest && Accepts(l, FieldState(n, ID_FIELD + 1), rest)
    decreases |input|
  {
    assert input == [input[0]] + input[1..];
    var v, more := FreeNeeded(l, IdMore(n, count + 1), input[1..]);
    assert more == [more[0]] + more[1..];
    if more[0] == ',' {
      var others;
      others, rest := IdsNeeded(l, n, count + 1, more[1..]);
      ids := [v] + others;
      assert ids[1..] == others;
      Regroup2("\"", v, "\"", ",", PrintIds(others), "]", rest);
    } else {
      ids, rest := [v], more[1..];
      Regroup2("\"", v, "\"", "", "", "]", rest);
    }
  }

  /** The value of every field before `index` is as in `known`. */
  ghost predicate SameBefore(index: nat, known: Item, item: Item) {
    && (index > 0 ==> item.candidateId == known.candidateId)
    && (index > 1 ==> item.fragmentIds == known.fragmentIds)
    && (index > 2 ==> item.citation == known.citation)
    && (index > 3 ==> item.tag == known.tag)
    && (index > 4 ==> item.claim == known.claim)
  }

  function WithValue(item: Item, index: nat, v: string): Item {
    if index == 0 then item.(candidateId := v)
    else if index == 2 then item.(citation := v)
    else if index == 3 then item.(tag := v)
    else item.(claim := v)
  }

  ghost predicate ValidBefore(l: Limits, index: nat, item: Item) {
    && (index > 0 ==> FreeText(item.candidateId))
    && (index > 1 ==> 1 <= |item.fragmentIds| <= l.maxIds && forall id | id in item.fragmentIds :: FreeText(id))
    && (index > 2 ==> FreeText(item.citation))
    && (index > 3 ==> FreeText(item.tag))
    && (index > 4 ==> FreeText(item.claim))
  }

  lemma Regroup(a: string, b: string, c: string, d: string, e: string)
    ensures a[0..] + (b + c + (d + e)) == a + b + c + d + e
    ensures a + (b + (c + d + e)) == a + b + c + d + e
    ensures a + (b + c + d) == a + b + c + d
  {
  }

  /** Reads the remaining fields of an item whose earlier fields are `known`. */
  lemma {:induction false} FieldsNeeded(l: Limits, n: nat, index: nat, known: Item, input: string)
    returns (item: Item, rest: string)
    requires Accepts(l, FieldState(n, index), input) && index <= ITEM_FIELDS
    requires index > 1 ==> known.fragmentIds != []
    requires ValidBefore(l, index, known)
    ensures SameBefore(index, known, item) && ValidItem(l, item)
    ensures input == PrintFields(item, index) + rest && Accepts(l, ItemEnd(n), rest)
    decreases ITEM_FIELDS - index
  {
    if index == ITEM_FIELDS {
      item := known;
      rest := LiteralNeeded(l, "}", 0, ItemEnd(n), input);
      assert "}"[0..] == "}";
    } else if index == ID_FIELD {
      var body := LiteralNeeded(l, Opening(index), 0, Ids(n, 0), input);
      var ids, tail := IdsNeeded(l, n, 0, body);
      item, rest := FieldsNeeded(l, n, index + 1, known.(fragmentIds := ids), tail);
      Regroup(Opening(index), PrintIds(ids), "]", PrintFields(item, index + 1), rest);
    } else {
      var body := LiteralNeeded(l, Opening(index), 0, Free(FieldState(n, index + 1)), input);
      var v, tail := FreeNeeded(l, FieldState(n, index + 1), body);
      item, rest := FieldsNeeded(l, n, index + 1, WithValue(known, index, v), tail);
      Regroup(Opening(index), v, "\"", PrintFields(item, index + 1), rest);
    }
  }

  lemma Bracket(a: string, b: string, c: string, d: string, e: string)
    ensures a + (b + (c + d + e)) == a + (b + c + d) + e
    ensures a == "" ==> b + (c + d + e) == a + (b + c + d) + e
  {
  }

  /** What follows the first item of a list. */
  function ItemsTail(items: seq<Item>): string
    requires items != []
  {
    if |items| == 1 then "" else "," + PrintItems(items[1..])
  }

  lemma CloseNeeded(l: Limits, s: State, input: string) returns (trail: string)
    requires Accepts(l, s, input) && input != [] && Step(l, s, input[0]) == Some(Lit("}", 0, Done)) && input[0] == ']'
    ensures input == "]}" + trail && Blank(trail)
  {
    trail := LiteralNeeded(l, "}", 0, Done, input[1..]);
    BlankNeeded(l, trail);
    assert "}"[0..] == "}" && input == [input[0]] + input[1..];
  }

  lemma {:induction false} ItemEndNeeded(l: Limits, n: nat, item: Item, input: string)
    returns (items: seq<Item>, trail: string)
    requires Accepts(l, ItemEnd(n), input) && n > 0 && n <= l.maxItems && ValidItem(l, item)
    ensures items != [] && items[0] == item && n - 1 + |items| <= l.maxItems
    ensures forall i | i in items :: ValidItem(l, i)
    ensures input == ItemsTail(items) + "]}" + trail && Blank(trail)
    decreases |input|
  {
    assert input == [input[0]] + input[1..];
    if input[0] == ',' {
      var others;
      others, trail := ItemsNeeded(l, n, input[1..]);
      items := [item] + others;
      assert items[1..] == others;
      Regroup(",", PrintItems(others), "]}", trail, "");
    } else {
      items := [item];
      trail := CloseNeeded(l, ItemEnd(n), input);
      assert "" + "]}" == "]}";
    }
  }

  lemma {:induction false} ItemsNeeded(l: Limits, n: nat, input: string) returns (items: seq<Item>, trail: string)
    requires Accepts(l, Items(n), input)
    ensures n + |items| <= l.maxItems || (n == 0 && items == [])
    ensures n > 0 ==> items != []
    ensures forall item | item in items :: ValidItem(l, item)
    ensures input == PrintItems(items) + "]}" + trail && Blank(trail)
    decreases |input|
  {
    assert input == [input[0]] + input[1..];
    if input[0] == ']' {
      items := [];
      trail := CloseNeeded(l, Items(n), input);
    } else {
      var item, more := FieldsNeeded(l, n + 1, 0, Item([], [], [], [], []), input[1..]);
      items, trail := ItemEndNeeded(l, n + 1, item, more);
      Regroup("{", PrintFields(item, 0), ItemsTail(items), "]}", trail);
    }
  }

  lemma HeadNeeded(l: Limits, input: string) returns (rest: string)
    requires Accepts(l, Pre, input) && input != [] && !IsBlank(input[0])
    ensures input == HEAD + rest && Accepts(l, Items(0), rest)
  {
    rest := LiteralNeeded(l, HEAD, 0, Items(0), input);
    assert HEAD[0..] == HEAD;
  }

  /** Soundness: whatever is completed is a printed document with blanks around it. */
  lemma {:induction false} CompleteIsPrinted(l: Limits, input: string)
    returns (lead: string, items: seq<Item>, trail: string)
    requires NoteMachine(l).Complete(input)
    ensures Blank(lead) && Blank(trail) && ValidItems(l, items) && input == lead + Document(items) + trail
  {
    assert input == [input[0]] + input[1..];
    if IsBlank(input[0]) {
      lead, items, trail := CompleteIsPrinted(l, input[1..]);
      Regroup([input[0]], lead, Document(items), trail, []);
      lead := [input[0]] + lead;
    } else {
      lead := [];
      var rest := HeadNeeded(l, input);
      items, trail := ItemsNeeded(l, 0, rest);
      Bracket([], HEAD, PrintItems(items), "]}", trail);
    }
  }

  /** The accepted language, both ways. */
  lemma Language(l: Limits, input: string)
    ensures NoteMachine(l).Complete(input) <==>
      exists lead, items, trail ::
        Blank(lead) && Blank(trail) && ValidItems(l, items) && input == lead + Document(items) + trail
  {
    if NoteMachine(l).Complete(input) {
      var lead, items, trail := CompleteIsPrinted(l, input);
    }
    forall lead, items, trail |
      Blank(lead) && Blank(trail) && ValidItems(l, items) && input == lead + Document(items) + trail
      ensures NoteMachine(l).Complete(input)
    {
      PrintedIsComplete(l, lead, items, trail);
    }
  }
}
