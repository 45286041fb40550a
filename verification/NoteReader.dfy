/** The printer undone: a completed text determines its items, so it has one reading. */
module NoteReader {
  import opened Common
  import opened ResponseMachine
  import opened NoteContract
  import opened NoteLanguage

  function Drop(t: string, n: nat): (r: string)
    ensures |r| <= |t|
  {
    if n <= |t| then t[n..] else []
  }

  /** Everything up to the first quote, and what comes after it. */
  function ReadFree(t: string): (r: (string, string))
    ensures |r.1| <= |t|
  {
    if t == [] then ([], [])
    else if t[0] == '"' then ([], t[1..])
    else
      var (v, rest) := ReadFree(t[1..]);
      ([t[0]] + v, rest)
  }

  /** The list of IDs whose first quote opens `t`, and what follows its bracket. */
  function ReadIds(t: string): (r: (seq<string>, string))
    ensures |r.1| <= |t|
    decreases |t|
  {
    if t == [] then ([], [])
    else
      var (v, rest) := ReadFree(t[1..]);
      if rest != [] && rest[0] == ',' then
        var (others, last) := ReadIds(rest[1..]);
        ([v] + others, last)
      else ([v], Drop(rest, 1))
  }

  /** The fields from `index` on, and what follows the closing brace; earlier fields are left empty. */
  function ReadFields(t: string, index: nat): (r: (Item, string))
    ensures |r.1| <= |t|
    decreases |t| + (if index < ITEM_FIELDS then ITEM_FIELDS - index else 0)
  {
    if index >= ITEM_FIELDS then (Item([], [], [], [], []), Drop(t, 1))
    else
      var body := Drop(t, |Opening(index)|);
      if index == ID_FIELD then
        var (ids, rest) := ReadIds(body);
        var (item, last) := ReadFields(rest, index + 1);
        (item.(fragmentIds := ids), last)
      else
        var (v, rest) := ReadFree(body);
        var (item, last) := ReadFields(rest, index + 1);
        (WithValue(item, index, v), last)
  }

  function ReadItems(t: string): seq<Item>
    decreases |t|
  {
    if t == [] || t[0] != '{' then []
    else
      var (item, rest) := ReadFields(t[1..], 0);
      [item] + (if rest != [] && rest[0] == ',' then ReadItems(rest[1..]) else [])
  }

  /** Decodes a completed text. */
  function Read(t: string): seq<Item> {
    if t == [] then []
    else if IsBlank(t[0]) then Read(t[1..])
    else ReadItems(Drop(t, |HEAD|))
  }

  // ---- Reading undoes printing ----

  lemma Dropped(a: string, b: string)
    ensures Drop(a + b, |a|) == b
  {
    assert (a + b)[|a|..] == b;
  }

  lemma {:induction false} FreeBack(v: string, x: string)
    requires FreeText(v)
    ensures ReadFree(v + "\"" + x) == (v, x)
  {
    var t := v + "\"" + x;
    if v == [] {
      assert t[1..] == x;
    } else {
      assert t[0] == v[0] && t[1..] == v[1..] + "\"" + x;
      FreeBack(v[1..], x);
      assert v == [v[0]] + v[1..];
    }
  }

  /** What follows the first ID of a list. */
  function IdsTail(ids: seq<string>): string
    requires ids != []
  {
    if |ids| == 1 then "" else "," + PrintIds(ids[1..])
  }

  lemma {:induction false} IdsBack(ids: seq<string>, x: string)
    requires ids != [] && forall id | id in ids :: FreeText(id)
    ensures ReadIds(PrintIds(ids) + "]" + x) == (ids, x)
  {
    var more := IdsTail(ids) + "]" + x;
    Regroup2("\"", ids[0], "\"", "", IdsTail(ids), "]", x);
    FreeBack(ids[0], more);
    if |ids| == 1 {
      assert more == "]" + x && ids == [ids[0]];
      Dropped("]", x);
    } else {
      Regroup(",", PrintIds(ids[1..]), "]", x, "");
      IdsBack(ids[1..], x);
      HeadAndTail(ids);
    }
  }

  ghost predicate SameFrom(index: nat, item: Item, other: Item) {
    && (index <= 0 ==> item.candidateId == other.candidateId)
    && (index <= 1 ==> item.fragmentIds == other.fragmentIds)
    && (index <= 2 ==> item.citation == other.citation)
    && (index <= 3 ==> item.tag == other.tag)
    && (index <= 4 ==> item.claim == other.claim)
  }

  lemma {:induction false} FieldsBack(l: Limits, item: Item, index: nat, x: string)
    requires ValidItem(l, item)
    ensures var r := ReadFields(PrintFields(item, index) + x, index); SameFrom(index, item, r.0) && r.1 == x
    decreases item, ITEM_FIELDS - index
  {
    if index >= ITEM_FIELDS {
      Dropped("}", x);
    } else {
      var tail := PrintFields(item, index + 1);
      FieldsBack(l, item, index + 1, x);
      if index == ID_FIELD {
        var body := PrintIds(item.fragmentIds) + "]" + (tail + x);
        Regroup(Opening(index), PrintIds(item.fragmentIds), "]", tail, x);
        assert PrintFields(item, index) + x == Opening(index) + body;
        Dropped(Opening(index), body);
        IdsBack(item.fragmentIds, tail + x);
      } else {
        var v := FieldValue(item, index);
        var body := v + "\"" + (tail + x);
        Regroup(Opening(index), v, "\"", tail, x);
        assert PrintFields(item, index) + x == Opening(index) + body;
        Dropped(Opening(index), body);
        FreeBack(v, tail + x);
      }
    }
  }

  lemma {:induction false} ItemsTailBack(l: Limits, items: seq<Item>, x: string)
    requires items != [] && forall item | item in items :: ValidItem(l, item)
    ensures var more := ItemsTail(items) + "]}" + x;
            more != [] && (if more[0] == ',' then ReadItems(more[1..]) else []) == items[1..]
    decreases items, 0
  {
    var more := ItemsTail(items) + "]}" + x;
    if |items| == 1 {
      assert more[0] == ']';
    } else {
      Regroup(",", PrintItems(items[1..]), "]}", x, "");
      ItemsBack(l, items[1..], x);
    }
  }

  lemma {:induction false} ItemsBack(l: Limits, items: seq<Item>, x: string)
    requires forall item | item in items :: ValidItem(l, item)
    ensures ReadItems(PrintItems(items) + "]}" + x) == items
    decreases items, 1
  {
    var t := PrintItems(items) + "]}" + x;
    if items == [] {
      assert t[0] == ']';
    } else {
      var more := ItemsTail(items) + "]}" + x;
      Regroup("{", PrintFields(items[0], 0), ItemsTail(items), "]}", x);
      FieldsBack(l, items[0], 0, more);
      ItemsTailBack(l, items, x);
      HeadAndTail(items);
    }
  }

  /** Round trip: reading a printed document gives the items back. */
  lemma {:induction false} RoundTrip(l: Limits, lead: string, items: seq<Item>, trail: string)
    requires Blank(lead) && ValidItems(l, items)
    ensures Read(lead + Document(items) + trail) == items
  {
    var t := lead + Document(items) + trail;
    if lead == [] {
      var body := PrintItems(items) + "]}" + trail;
      Bracket([], HEAD, PrintItems(items), "]}", trail);
      assert t == HEAD + body;
      Dropped(HEAD, body);
      ItemsBack(l, items, trail);
    } else {
      Regroup([lead[0]], lead[1..], Document(items), trail, []);
      assert lead == [lead[0]] + lead[1..];
      RoundTrip(l, lead[1..], items, trail);
    }
  }

  lemma SameEnds(lead: string, text: string, trail: string, lead': string, trail': string)
    requires Blank(lead) && Blank(lead') && text != [] && !IsBlank(text[0])
    requires lead + text + trail == lead' + text + trail'
    ensures lead == lead' && trail == trail'
  {
    assert lead + text + trail == lead + (text + trail);
    assert lead' + text + trail' == lead' + (text + trail');
    BlankPrefix(lead, text + trail, lead', text + trail');
    Dropped(text, trail);
    Dropped(text, trail');
  }

  /** A completed text has exactly one reading: its items and both runs of blanks. */
  lemma UniqueReading(l: Limits, lead: string, items: seq<Item>, trail: string, lead': string, items': seq<Item>,
                      trail': string)
    requires Blank(lead) && Blank(trail) && ValidItems(l, items)
    requires Blank(lead') && Blank(trail') && ValidItems(l, items')
    requires lead + Document(items) + trail == lead' + Document(items') + trail'
    ensures lead == lead' && items == items' && trail == trail'
  {
    RoundTrip(l, lead, items, trail);
    RoundTrip(l, lead', items', trail');
    SameEnds(lead, Document(items), trail, lead', trail');
  }
}
