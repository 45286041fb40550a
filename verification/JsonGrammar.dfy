/** The grammar of RFC 8259 as derivation trees: a text is JSON when some tree unparses to it. */
module JsonGrammar {
  import opened ResponseMachine

  datatype Elem = Elem(pre: string, value: Tree, post: string)

  datatype Member = Member(pre: string, key: string, mid: string, elem: Elem)

  /** Section 3 (values), 4 (objects), 5 (arrays), 6 (numbers), 7 (strings). `pad` is the
      whitespace inside empty brackets; otherwise whitespace belongs to the elements. */
  datatype Tree =
    | Word(text: string)
    | Number(minus: bool, digits: string, fraction: string, exponent: string)
    | Str(raw: string)
    | Arr(pad: string, elems: seq<Elem>)
    | Obj(pad: string, members: seq<Member>)

  predicate IsDigit(c: char) {
    '0' <= c <= '9'
  }

  predicate Digits(s: string) {
    s != [] && forall i | 0 <= i < |s| :: IsDigit(s[i])
  }

  predicate IsFraction(s: string) {
    s == [] || (s[0] == '.' && Digits(s[1..]))
  }

  predicate IsExponent(s: string) {
    s == [] || ((s[0] == 'e' || s[0] == 'E')
      && (Digits(s[1..]) || (|s| > 1 && (s[1] == '+' || s[1] == '-') && Digits(s[2..]))))
  }

  predicate IsHex(c: char) {
    IsDigit(c) || 'a' <= c <= 'f' || 'A' <= c <= 'F'
  }

  predicate IsStringBody(raw: string) {
    if raw == [] then true
    else if raw[0] == '\\' then
      if |raw| < 2 then false
      else if raw[1] == 'u' then
        |raw| >= 6 && (forall i | 2 <= i < 6 :: IsHex(raw[i])) && IsStringBody(raw[6..])
      else raw[1] in "\"\\/bfnrt" && IsStringBody(raw[2..])
    else raw[0] != '"' && raw[0] >= ' ' && IsStringBody(raw[1..])
  }

  /** No quote, backslash or control character: what needs no escaping. */
  ghost predicate Plain(v: string) {
    forall i | 0 <= i < |v| :: v[i] != '"' && v[i] != '\\' && v[i] >= ' '
  }

  /** It is what a string may hold without a backslash. */
  lemma {:induction false} PlainMeans(v: string)
    ensures Plain(v) <==> IsStringBody(v) && '\\' !in v
  {
    if v != [] {
      PlainMeans(v[1..]);
      assert v == [v[0]] + v[1..];
    }
  }

  predicate GrammaticalElem(e: Elem) {
    Blank(e.pre) && Grammatical(e.value) && Blank(e.post)
  }

  predicate GrammaticalMember(m: Member) {
    Blank(m.pre) && IsStringBody(m.key) && Blank(m.mid) && GrammaticalElem(m.elem)
  }

  predicate Grammatical(t: Tree) {
    match t
    case Word(text) => text == "null" || text == "true" || text == "false"
    case Number(_, digits, fraction, exponent) =>
      Digits(digits) && (digits[0] == '0' ==> |digits| == 1) && IsFraction(fraction) && IsExponent(exponent)
    case Str(raw) => IsStringBody(raw)
    case Arr(pad, elems) =>
      Blank(pad) && (elems != [] ==> pad == []) && forall e | e in elems :: GrammaticalElem(e)
    case Obj(pad, members) =>
      Blank(pad) && (members != [] ==> pad == [])
      && forall m | m in members :: GrammaticalMember(m)
  }

  function UnparseElem(e: Elem): string {
    e.pre + Unparse(e.value) + e.post
  }

  function UnparseElems(elems: seq<Elem>): string {
    if elems == [] then ""
    else UnparseElem(elems[0]) + (if |elems| == 1 then "" else "," + UnparseElems(elems[1..]))
  }

  function UnparseMember(m: Member): string {
    m.pre + "\"" + m.key + "\"" + m.mid + ":" + UnparseElem(m.elem)
  }

  function UnparseMembers(members: seq<Member>): string {
    if members == [] then ""
    else UnparseMember(members[0]) + (if |members| == 1 then "" else "," + UnparseMembers(members[1..]))
  }

  function Unparse(t: Tree): string {
    match t
    case Word(text) => text
    case Number(minus, digits, fraction, exponent) => (if minus then "-" else "") + digits + fraction + exponent
    case Str(raw) => "\"" + raw + "\""
    case Arr(pad, elems) => "[" + pad + UnparseElems(elems) + "]"
    case Obj(pad, members) => "{" + pad + UnparseMembers(members) + "}"
  }

  /** Section 2: a JSON text is one value with whitespace around it. */
  ghost predicate Derives(t: Tree, pre: string, post: string, text: string) {
    Grammatical(t) && Blank(pre) && Blank(post) && text == pre + Unparse(t) + post
  }

  ghost predicate IsJson(text: string) {
    exists t, pre, post :: Derives(t, pre, post, text)
  }
}
