/** Every text the note machine completes is JSON, and says what the printed items say. */
module NoteJson {
  import opened Common
  import opened NoteContract
  import opened NoteLanguage
  import opened JsonGrammar
  import opened JsonUnambiguous

  function Bare(t: Tree): Elem {
    Elem("", t, "")
  }

  function Strings(ids: seq<string>): (r: seq<Elem>)
    ensures |r| == |ids|
  {
    seq(|ids|, i requires 0 <= i < |ids| => Bare(Str(ids[i])))
  }

  function FieldTree(item: Item, index: nat): Tree {
    if index == ID_FIELD then Arr("", Strings(item.fragmentIds)) else Str(FieldValue(item, index))
  }

  function FieldMember(item: Item, index: nat): Member {
    Member("", FieldName(index), "", Bare(FieldTree(item, index)))
  }

  /** The item's members from field `index` on, named in the registered order. */
  function Members(item: Item, index: nat): (r: seq<Member>)
    ensures |r| == if index < ITEM_FIELDS then ITEM_FIELDS - index else 0
    decreases item, ITEM_FIELDS - index
  {
    if index >= ITEM_FIELDS then []
    else [FieldMember(item, index)] + Members(item, index + 1)
  }

  function ItemTree(item: Item): Tree {
    Obj("", Members(item, 0))
  }

  function ItemTrees(items: seq<Item>): (r: seq<Elem>)
    ensures |r| == |items|
  {
    seq(|items|, i requires 0 <= i < |items| => Bare(ItemTree(items[i])))
  }

  function DocumentTree(items: seq<Item>): Tree {
    Obj("", [Member("", "items", "", Bare(Arr("", ItemTrees(items))))])
  }

  // ---- Grammatical ----

  lemma NameAllowed(index: nat)
    ensures forall i | 0 <= i < |FieldName(index)| :: Allowed(FieldName(index)[i])
  {
  }

  lemma NameIsFree(index: nat)
    ensures FreeText(FieldName(index))
  {
    NameAllowed(index);
    FreeTextAllowed(FieldName(index));
  }

  lemma FieldGrammatical(l: Limits, item: Item, index: nat)
    requires ValidItem(l, item)
    ensures GrammaticalMember(FieldMember(item, index))
  {
    NameIsFree(index);
    if index == ID_FIELD {
      forall e | e in Strings(item.fragmentIds) ensures GrammaticalElem(e) {
        assert e.value.raw in item.fragmentIds;
      }
    }
  }

  lemma {:induction false} MembersGrammatical(l: Limits, item: Item, index: nat)
    requires ValidItem(l, item)
    ensures forall m | m in Members(item, index) :: GrammaticalMember(m)
    decreases ITEM_FIELDS - index
  {
    if index < ITEM_FIELDS {
      MembersGrammatical(l, item, index + 1);
      FieldGrammatical(l, item, index);
    }
  }

  lemma DocumentGrammatical(l: Limits, items: seq<Item>)
    requires ValidItems(l, items)
    ensures Grammatical(DocumentTree(items))
  {
    forall e | e in ItemTrees(items) ensures GrammaticalElem(e) {
      var i :| 0 <= i < |items| && e == ItemTrees(items)[i];
      MembersGrammatical(l, items[i], 0);
    }
    assert Grammatical(Arr("", ItemTrees(items)));
    FreeTextAllowed("items");
  }

  // ---- Unparsing gives the printed text ----

  lemma {:induction false} StringsUnparse(ids: seq<string>)
    ensures UnparseElems(Strings(ids)) == PrintIds(ids)
  {
    if ids == [] {
    } else {
      StringsUnparse(ids[1..]);
      assert Strings(ids)[1..] == Strings(ids[1..]);
      assert UnparseElem(Strings(ids)[0]) == "\"" + ids[0] + "\"";
    }
  }

  function Comma(index: nat): string {
    if index == 0 then "" else ","
  }

  lemma MemberAlone(name: string, value: Tree)
    ensures UnparseMember(Member("", name, "", Bare(value))) == "\"" + name + "\":" + Unparse(value)
  {
    assert "" + "\"" + name + "\"" + "" + ":" == "\"" + name + "\":";
  }

  lemma MemberText(comma: string, name: string, value: Tree, open: string, v: string, close: string, rest: string)
    requires Unparse(value) == open + v + close
    ensures comma + "\"" + name + ("\":" + open) + v + close + rest
         == comma + (UnparseMember(Member("", name, "", Bare(value))) + rest)
  {
    MemberAlone(name, value);
    assert comma + "\"" + name + ("\":" + open) + v + close + rest
        == comma + ("\"" + name + "\":" + (open + v + close) + rest);
  }

  /** One field as a JSON member, whatever follows it. */
  lemma FieldUnparse(item: Item, index: nat)
    requires index < ITEM_FIELDS
    ensures PrintFields(item, index)
         == Comma(index) + (UnparseMember(FieldMember(item, index)) + PrintFields(item, index + 1))
  {
    var rest := PrintFields(item, index + 1);
    if index == ID_FIELD {
      StringsUnparse(item.fragmentIds);
      MemberText(Comma(index), FieldName(index), FieldTree(item, index), "[", PrintIds(item.fragmentIds), "]", rest);
    } else {
      MemberText(Comma(index), FieldName(index), FieldTree(item, index), "\"", FieldValue(item, index), "\"", rest);
    }
  }

  lemma Shift(a: string, b: string, c: string, d: string)
    ensures a + (b + c) + d == a + (b + (c + d))
  {
  }

  lemma {:induction false} MembersUnparse(item: Item, index: nat)
    requires index < ITEM_FIELDS
    ensures Comma(index) + (UnparseMembers(Members(item, index)) + "}") == PrintFields(item, index)
    decreases ITEM_FIELDS - index
  {
    var members := Members(item, index);
    var first := UnparseMember(FieldMember(item, index));
    FieldUnparse(item, index);
    assert members[1..] == Members(item, index + 1);
    if index + 1 < ITEM_FIELDS {
      MembersUnparse(item, index + 1);
      Shift(first, ",", UnparseMembers(members[1..]), "}");
    } else {
      assert first + "" + "}" == first + "}";
    }
  }

  lemma Braces(members: string, printed: string)
    requires "" + (members + "}") == printed
    ensures "{" + "" + members + "}" == "{" + printed
  {
    assert "" + (members + "}") == members + "}";
    assert "{" + "" + members + "}" == "{" + (members + "}");
  }

  lemma ObjectUnparse(members: seq<Member>)
    ensures UnparseElem(Bare(Obj("", members))) == "{" + "" + UnparseMembers(members) + "}"
  {
    AppendNothing("{" + "" + UnparseMembers(members) + "}");
  }

  lemma ItemUnparse(item: Item)
    ensures UnparseElem(Bare(ItemTree(item))) == "{" + PrintFields(item, 0)
  {
    ObjectUnparse(Members(item, 0));
    MembersUnparse(item, 0);
    Braces(UnparseMembers(Members(item, 0)), PrintFields(item, 0));
  }

  lemma {:induction false} ItemsUnparse(items: seq<Item>)
    ensures UnparseElems(ItemTrees(items)) == PrintItems(items)
  {
    if items == [] {
    } else {
      ItemsUnparse(items[1..]);
      assert ItemTrees(items)[1..] == ItemTrees(items[1..]);
      ItemUnparse(items[0]);
    }
  }

  lemma Enclose(member: string, name: string, body: string)
    requires member == name + ("[" + "" + body + "]")
    ensures "{" + "" + (member + "") + "}" == "{" + name + "[" + body + "]}"
  {
  }

  lemma DocumentUnparse(items: seq<Item>)
    ensures Unparse(DocumentTree(items)) == Document(items)
  {
    ItemsUnparse(items);
    var list := Arr("", ItemTrees(items));
    MemberAlone("items", list);
    Enclose(UnparseMember(Member("", "items", "", Bare(list))), "\"items\":", PrintItems(items));
    assert "{" + "\"items\":" + "[" == HEAD;
  }

  /** A completed text is JSON, in particular no list in it ends with a comma, and it is JSON in one
      way only: whatever derives it is the tree of the items it prints. */
  lemma CompleteIsJson(l: Limits, text: string) returns (lead: string, items: seq<Item>, trail: string)
    requires NoteMachine(l).Complete(text)
    ensures ValidItems(l, items) && Derives(DocumentTree(items), lead, trail, text) && IsJson(text)
    ensures forall t, pre, post | Derives(t, pre, post, text) ::
      t == DocumentTree(items) && pre == lead && post == trail
  {
    lead, items, trail := CompleteIsPrinted(l, text);
    DocumentGrammatical(l, items);
    DocumentUnparse(items);
    assert Derives(DocumentTree(items), lead, trail, text);
    forall t, pre, post | Derives(t, pre, post, text)
      ensures t == DocumentTree(items) && pre == lead && post == trail
    {
      DerivationUnique(t, pre, post, DocumentTree(items), lead, trail, text);
    }
  }
}
