/** The grammar of RFC 8259 is unambiguous: a text has at most one derivation. */
module JsonUnambiguous {
  import opened Common
  import opened ResponseMachine
  import opened JsonGrammar

  /** What may follow a value: the end, whitespace, or the mark that ends its place. */
  predicate Follows(x: string) {
    x == [] || IsBlank(x[0]) || x[0] == ',' || x[0] == ']' || x[0] == '}'
  }

  /** What may follow an element and the whitespace behind it. */
  predicate Ends(x: string) {
    x != [] && (x[0] == ',' || x[0] == ']' || x[0] == '}')
  }

  lemma Behead(a: string, x: string, y: string)
    requires a + x == a + y
    ensures x == y
  {
    assert x == (a + x)[|a|..] && y == (a + y)[|a|..];
  }

  /** Two texts put together of pieces of the same length have the same pieces. */
  lemma SameCut(a: string, x: string, b: string, y: string)
    requires a + x == b + y && |a| == |b|
    ensures a == b && x == y
  {
    assert a == (a + x)[..|a|] && b == (b + y)[..|b|];
    Behead(a, x, y);
  }

  /** What comes after the shorter of two beginnings is in the longer one. */
  lemma ShorterGoesOn(a: string, x: string, b: string, y: string)
    requires a + x == b + y && |a| < |b|
    ensures x != [] && x[0] == b[|a|]
  {
    assert (a + x)[|a|] == x[0] && (b + y)[|a|] == b[|a|];
  }

  // ---- Strings ----

  lemma BodyStart(a: string, x: string)
    requires IsStringBody(a)
    ensures (a + "\"" + x)[0] == '"' <==> a == []
    ensures a == [] ==> a + "\"" + x == "\"" + x
  {
  }

  /** How many characters the first unit of a string body takes: one, or an escape. */
  function UnitSize(a: string): (n: nat)
    requires a != [] && IsStringBody(a)
    ensures 1 <= n <= |a| && IsStringBody(a[n..])
  {
    if a[0] != '\\' then 1 else if a[1] == 'u' then 6 else 2
  }

  lemma UnitsAgree(a: string, x: string, b: string, y: string)
    requires IsStringBody(a) && IsStringBody(b) && a != [] && b != [] && a + "\"" + x == b + "\"" + y
    ensures UnitSize(a) == UnitSize(b)
  {
    var s := a + "\"" + x;
    assert s[0] == a[0] == b[0];
    if a[0] == '\\' { assert s[1] == a[1] == b[1]; }
  }

  lemma Dropped(a: string, x: string, n: nat)
    requires n <= |a|
    ensures (a + "\"" + x)[n..] == a[n..] + "\"" + x
  {
  }

  lemma {:induction false} BodyUnique(a: string, x: string, b: string, y: string)
    requires IsStringBody(a) && IsStringBody(b) && a + "\"" + x == b + "\"" + y
    ensures a == b && x == y
    decreases |a|
  {
    var s := a + "\"" + x;
    assert s == b + "\"" + y;
    if a == [] || b == [] {
      BodyStart(a, x);
      BodyStart(b, y);
      Behead("\"", x, y);
    } else {
      var n := UnitSize(a);
      UnitsAgree(a, x, b, y);
      Dropped(a, x, n);
      Dropped(b, y, n);
      BodyUnique(a[n..], x, b[n..], y);
      assert a == a[..n] + a[n..] && b == b[..n] + b[n..];
      assert a[..n] == s[..n] && b[..n] == s[..n];
    }
  }

  // ---- Numbers ----

  /** Digits end where something else begins. */
  lemma DigitsUnique(a: string, x: string, b: string, y: string)
    requires a + x == b + y
    requires (forall i | 0 <= i < |a| :: IsDigit(a[i])) && (forall i | 0 <= i < |b| :: IsDigit(b[i]))
    requires (x == [] || !IsDigit(x[0])) && (y == [] || !IsDigit(y[0]))
    ensures a == b && x == y
  {
    if |a| < |b| {
      ShorterGoesOn(a, x, b, y);
      assert false;
    } else if |b| < |a| {
      ShorterGoesOn(b, y, a, x);
      assert false;
    }
    SameCut(a, x, b, y);
  }

  lemma FractionUnique(f: string, x: string, g: string, y: string)
    requires IsFraction(f) && IsFraction(g) && f + x == g + y
    requires (x == [] || x[0] == 'e' || x[0] == 'E') && (y == [] || y[0] == 'e' || y[0] == 'E')
    ensures f == g && x == y
  {
    var s := f + x;
    assert s == g + y;
    if f == [] || g == [] {
      assert s != [] ==> (s[0] == '.' <==> f != []) && (s[0] == '.' <==> g != []);
      SameCut(f, x, g, y);
    } else {
      assert s[1..] == f[1..] + x && s[1..] == g[1..] + y;
      DigitsUnique(f[1..], x, g[1..], y);
      assert f == ['.'] + f[1..] && g == ['.'] + g[1..];
    }
  }

  lemma Unsigned(t: Tree)
    requires Grammatical(t) && t.Number?
    ensures Unparse(t) == (if t.minus then "-" else "") + (t.digits + (t.fraction + t.exponent))
    ensures !t.minus ==> Unparse(t) == t.digits + (t.fraction + t.exponent)
    ensures t.fraction + t.exponent == [] || !IsDigit((t.fraction + t.exponent)[0])
    ensures t.exponent == [] || t.exponent[0] == 'e' || t.exponent[0] == 'E'
  {
    var sign := if t.minus then "-" else "";
    AppendAssociates(sign + t.digits, t.fraction, t.exponent);
    AppendAssociates(sign, t.digits, t.fraction + t.exponent);
    AppendNothing(t.digits + (t.fraction + t.exponent));
    AppendNothing(t.exponent);
  }

  /** A number is spelled in one way only. */
  lemma NumberUnique(t: Tree, u: Tree)
    requires Grammatical(t) && Grammatical(u) && t.Number? && u.Number? && Unparse(t) == Unparse(u)
    ensures t == u
  {
    Unsigned(t);
    Unsigned(u);
    var a, b := t.fraction + t.exponent, u.fraction + u.exponent;
    assert Unparse(t)[0] == '-' <==> t.minus;
    assert Unparse(u)[0] == '-' <==> u.minus;
    if t.minus { Behead("-", t.digits + a, u.digits + b); }
    DigitsUnique(t.digits, a, u.digits, b);
    FractionUnique(t.fraction, t.exponent, u.fraction, u.exponent);
  }

  // ---- Values ----

  lemma FirstChar(t: Tree)
    requires Grammatical(t)
    ensures Unparse(t) != []
    ensures var c := Unparse(t)[0];
            && !IsBlank(c) && c != ']' && c != '}' && c != ',' && c != ':'
            && (t.Word? <==> c == 'n' || c == 't' || c == 'f')
            && (t.Number? <==> IsDigit(c) || c == '-')
            && (t.Str? <==> c == '"') && (t.Arr? <==> c == '[') && (t.Obj? <==> c == '{')
  {
  }

  lemma WordUnique(t: Tree, x: string, u: Tree, y: string)
    requires Grammatical(t) && Grammatical(u) && t.Word? && u.Word? && Unparse(t) + x == Unparse(u) + y
    ensures t == u && x == y
  {
    assert (t.text + x)[0] == t.text[0] && (u.text + y)[0] == u.text[0];
    assert t.text == u.text;
    Behead(t.text, x, y);
  }

  lemma NumbersUnique(t: Tree, x: string, u: Tree, y: string)
    requires Grammatical(t) && Grammatical(u) && t.Number? && u.Number? && Unparse(t) + x == Unparse(u) + y
    requires Follows(x) && Follows(y)
    ensures t == u && x == y
  {
    var a, b := Unparse(t), Unparse(u);
    if |a| < |b| {
      ShorterGoesOn(a, x, b, y);
      assert false;
    } else if |b| < |a| {
      ShorterGoesOn(b, y, a, x);
      assert false;
    }
    SameCut(a, x, b, y);
    NumberUnique(t, u);
  }

  lemma StrUnique(a: string, x: string, b: string, y: string)
    requires IsStringBody(a) && IsStringBody(b) && "\"" + a + "\"" + x == "\"" + b + "\"" + y
    ensures a == b && x == y
  {
    assert "\"" + a + "\"" + x == "\"" + (a + "\"" + x) && "\"" + b + "\"" + y == "\"" + (b + "\"" + y);
    Behead("\"", a + "\"" + x, b + "\"" + y);
    BodyUnique(a, x, b, y);
  }

  /** Whitespace in front of something that is not. */
  lemma BlankUnique(a: string, x: string, b: string, y: string)
    requires Blank(a) && Blank(b) && a + x == b + y
    requires (x == [] || !IsBlank(x[0])) && (y == [] || !IsBlank(y[0]))
    ensures a == b && x == y
  {
    if |a| < |b| {
      ShorterGoesOn(a, x, b, y);
      assert false;
    } else if |b| < |a| {
      ShorterGoesOn(b, y, a, x);
      assert false;
    }
    SameCut(a, x, b, y);
  }

  // ---- Arrays ----

  lemma ArrayParts(pad: string, elems: seq<Elem>, x: string)
    ensures Unparse(Arr(pad, elems)) + x == "[" + (pad + (UnparseElems(elems) + ("]" + x)))
  {
    assert "[" + pad + UnparseElems(elems) + "]" + x == "[" + (pad + (UnparseElems(elems) + ("]" + x)));
  }

  lemma Unpadded(pad: string, a: string, pad': string, b: string)
    requires pad == pad' == [] && pad + a == pad' + b
    ensures a == b
  {
    Behead([], a, b);
  }

  /** What follows the first element. */
  function ElemsTail(elems: seq<Elem>, x: string): string
    requires elems != []
  {
    if |elems| == 1 then x else "," + (UnparseElems(elems[1..]) + x)
  }

  function ElemText(e: Elem, x: string): string {
    e.pre + (Unparse(e.value) + (e.post + x))
  }

  lemma ElemPut(e: Elem, more: string, x: string)
    ensures UnparseElem(e) + more + x == ElemText(e, more + x)
  {
    AppendAssociates(e.pre + Unparse(e.value) + e.post, more, x);
    AppendAssociates(e.pre + Unparse(e.value), e.post, more + x);
    AppendAssociates(e.pre, Unparse(e.value), e.post + (more + x));
  }

  lemma ElemsFirst(elems: seq<Elem>, x: string)
    ensures elems == [] ==> UnparseElems(elems) + x == x
    ensures elems != [] ==> UnparseElems(elems) + x == ElemText(elems[0], ElemsTail(elems, x))
  {
    if elems != [] {
      var e, more := elems[0], if |elems| == 1 then "" else "," + UnparseElems(elems[1..]);
      assert more + x == ElemsTail(elems, x);
      ElemPut(e, more, x);
    }
  }

  /** Blanks and a mark are no element. */
  lemma OpensWithValue(pad: string, x: string, e: Elem, y: string, none: string)
    requires Blank(pad) && GrammaticalElem(e) && none == []
    requires x != [] && (x[0] == ']' || x[0] == '}')
    ensures pad + x != none + ElemText(e, y)
  {
    FirstChar(e.value);
    if pad + x == none + ElemText(e, y) {
      assert none + ElemText(e, y) == ElemText(e, y);
      assert (Unparse(e.value) + (e.post + y))[0] == Unparse(e.value)[0];
      BlankUnique(pad, x, e.pre, Unparse(e.value) + (e.post + y));
      assert false;
    }
  }

  /** An empty list does not read as one with elements. */
  lemma NoElems(pad: string, elems: seq<Elem>, x: string, pad': string, elems': seq<Elem>, y: string)
    requires Grammatical(Arr(pad, elems)) && Grammatical(Arr(pad', elems')) && (elems == [] || elems' == [])
    requires pad + (UnparseElems(elems) + x) == pad' + (UnparseElems(elems') + y)
    requires x != [] && x[0] == ']' && y != [] && y[0] == ']'
    ensures elems == elems' == [] && pad == pad' && x == y
  {
    ElemsFirst(elems, x);
    ElemsFirst(elems', y);
    if elems == [] && elems' == [] {
      BlankUnique(pad, x, pad', y);
    } else if elems == [] {
      OpensWithValue(pad, x, elems'[0], ElemsTail(elems', y), pad');
    } else {
      OpensWithValue(pad', y, elems[0], ElemsTail(elems, x), pad);
    }
  }

  lemma {:induction false} ElemUnique(e: Elem, x: string, f: Elem, y: string)
    requires GrammaticalElem(e) && GrammaticalElem(f) && ElemText(e, x) == ElemText(f, y)
    requires Ends(x) && Ends(y)
    ensures e == f && x == y
    decreases e, 3
  {
    FirstChar(e.value);
    FirstChar(f.value);
    assert (Unparse(e.value) + (e.post + x))[0] == Unparse(e.value)[0];
    assert (Unparse(f.value) + (f.post + y))[0] == Unparse(f.value)[0];
    BlankUnique(e.pre, Unparse(e.value) + (e.post + x), f.pre, Unparse(f.value) + (f.post + y));
    ValueUnique(e.value, e.post + x, f.value, f.post + y);
    BlankUnique(e.post, x, f.post, y);
  }

  lemma {:induction false} ElemsOpen(es: seq<Elem>, x: string, fs: seq<Elem>, y: string)
    requires es != [] && fs != [] && UnparseElems(es) + x == UnparseElems(fs) + y
    requires x != [] && x[0] == ']' && y != [] && y[0] == ']'
    ensures ElemText(es[0], ElemsTail(es, x)) == ElemText(fs[0], ElemsTail(fs, y))
    ensures Ends(ElemsTail(es, x)) && Ends(ElemsTail(fs, y))
  {
    ElemsFirst(es, x);
    ElemsFirst(fs, y);
  }

  lemma ElemsGoOn(es: seq<Elem>, x: string, fs: seq<Elem>, y: string)
    requires es != [] && fs != [] && ElemsTail(es, x) == ElemsTail(fs, y)
    requires x != [] && x[0] == ']' && y != [] && y[0] == ']'
    ensures |es| == 1 <==> |fs| == 1
    ensures |es| == 1 ==> x == y && es[1..] == fs[1..]
    ensures |es| > 1 ==> UnparseElems(es[1..]) + x == UnparseElems(fs[1..]) + y
  {
    if |es| > 1 && |fs| > 1 { Behead(",", UnparseElems(es[1..]) + x, UnparseElems(fs[1..]) + y); }
  }

  /** The elements of an array from the k-th on. */
  lemma {:induction false} ElemsUnique(t: Tree, k: nat, x: string, fs: seq<Elem>, y: string)
    requires t.Arr? && k < |t.elems| && Grammatical(t) && fs != [] && forall f | f in fs :: GrammaticalElem(f)
    requires UnparseElems(t.elems[k..]) + x == UnparseElems(fs) + y
    requires x != [] && x[0] == ']' && y != [] && y[0] == ']'
    ensures t.elems[k..] == fs && x == y
    decreases t, 0, |t.elems| - k
  {
    var es := t.elems[k..];
    assert es[0] == t.elems[k] && t.elems[k] in t.elems && fs[0] in fs;
    ElemsOpen(es, x, fs, y);
    ElemUnique(t.elems[k], ElemsTail(es, x), fs[0], ElemsTail(fs, y));
    ElemsGoOn(es, x, fs, y);
    if |es| > 1 {
      assert es[1..] == t.elems[k + 1..];
      ElemsUnique(t, k + 1, x, fs[1..], y);
    }
  }

  lemma {:induction false} ArrayUnique(t: Tree, x: string, u: Tree, y: string)
    requires t.Arr? && u.Arr? && Grammatical(t) && Grammatical(u) && Unparse(t) + x == Unparse(u) + y
    ensures t == u && x == y
    decreases t, 1
  {
    ArrayParts(t.pad, t.elems, x);
    ArrayParts(u.pad, u.elems, y);
    var a, b := UnparseElems(t.elems) + ("]" + x), UnparseElems(u.elems) + ("]" + y);
    Behead("[", t.pad + a, u.pad + b);
    if t.elems == [] || u.elems == [] {
      NoElems(t.pad, t.elems, "]" + x, u.pad, u.elems, "]" + y);
    } else {
      Unpadded(t.pad, a, u.pad, b);
      assert t.elems[0..] == t.elems;
      ElemsUnique(t, 0, "]" + x, u.elems, "]" + y);
    }
    Behead("]", x, y);
  }

  // ---- Objects ----

  lemma ObjectParts(pad: string, members: seq<Member>, x: string)
    ensures Unparse(Obj(pad, members)) + x == "{" + (pad + (UnparseMembers(members) + ("}" + x)))
  {
    assert "{" + pad + UnparseMembers(members) + "}" + x == "{" + (pad + (UnparseMembers(members) + ("}" + x)));
  }

  function MembersTail(members: seq<Member>, x: string): string
    requires members != []
  {
    if |members| == 1 then x else "," + (UnparseMembers(members[1..]) + x)
  }

  function MemberText(m: Member, x: string): string {
    m.pre + ("\"" + (m.key + "\"" + (m.mid + (":" + ElemText(m.elem, x)))))
  }

  lemma MemberPut(m: Member, x: string)
    ensures UnparseMember(m) + x == MemberText(m, x)
  {
    var u := UnparseElem(m.elem);
    ElemPut(m.elem, "", x);
    AppendNothing(u);
    AppendNothing(x);
  }

  lemma MembersFirst(members: seq<Member>, x: string)
    ensures members == [] ==> UnparseMembers(members) + x == x
    ensures members != [] ==> UnparseMembers(members) + x == MemberText(members[0], MembersTail(members, x))
  {
    if members != [] {
      var m, more := members[0], if |members| == 1 then "" else "," + UnparseMembers(members[1..]);
      assert more + x == MembersTail(members, x);
      MemberPut(m, more + x);
      AppendAssociates(UnparseMember(m), more, x);
    }
  }

  /** Blanks and a mark are no member. */
  lemma OpensWithKey(pad: string, x: string, m: Member, y: string, none: string)
    requires Blank(pad) && GrammaticalMember(m) && none == [] && x != [] && x[0] == '}'
    ensures pad + x != none + MemberText(m, y)
  {
    var rest := "\"" + (m.key + "\"" + (m.mid + (":" + ElemText(m.elem, y))));
    if pad + x == none + MemberText(m, y) {
      assert none + MemberText(m, y) == MemberText(m, y);
      assert rest[0] == '"';
      BlankUnique(pad, x, m.pre, rest);
      assert false;
    }
  }

  lemma NoMembers(pad: string, members: seq<Member>, x: string, pad': string, members': seq<Member>, y: string)
    requires Grammatical(Obj(pad, members)) && Grammatical(Obj(pad', members')) && (members == [] || members' == [])
    requires pad + (UnparseMembers(members) + x) == pad' + (UnparseMembers(members') + y)
    requires x != [] && x[0] == '}' && y != [] && y[0] == '}'
    ensures members == members' == [] && pad == pad' && x == y
  {
    MembersFirst(members, x);
    MembersFirst(members', y);
    if members == [] && members' == [] {
      BlankUnique(pad, x, pad', y);
    } else if members == [] {
      OpensWithKey(pad, x, members'[0], MembersTail(members', y), pad');
    } else {
      OpensWithKey(pad', y, members[0], MembersTail(members, x), pad);
    }
  }

  lemma {:induction false} MemberUnique(m: Member, x: string, n: Member, y: string)
    requires GrammaticalMember(m) && GrammaticalMember(n) && MemberText(m, x) == MemberText(n, y)
    requires Ends(x) && Ends(y)
    ensures m == n && x == y
    decreases m, 4
  {
    var a, b := m.mid + (":" + ElemText(m.elem, x)), n.mid + (":" + ElemText(n.elem, y));
    BlankUnique(m.pre, "\"" + (m.key + "\"" + a), n.pre, "\"" + (n.key + "\"" + b));
    Behead("\"", m.key + "\"" + a, n.key + "\"" + b);
    BodyUnique(m.key, a, n.key, b);
    BlankUnique(m.mid, ":" + ElemText(m.elem, x), n.mid, ":" + ElemText(n.elem, y));
    Behead(":", ElemText(m.elem, x), ElemText(n.elem, y));
    ElemUnique(m.elem, x, n.elem, y);
  }

  lemma {:induction false} MembersOpen(ms: seq<Member>, x: string, ns: seq<Member>, y: string)
    requires ms != [] && ns != [] && UnparseMembers(ms) + x == UnparseMembers(ns) + y
    requires x != [] && x[0] == '}' && y != [] && y[0] == '}'
    ensures MemberText(ms[0], MembersTail(ms, x)) == MemberText(ns[0], MembersTail(ns, y))
    ensures Ends(MembersTail(ms, x)) && Ends(MembersTail(ns, y))
  {
    MembersFirst(ms, x);
    MembersFirst(ns, y);
  }

  lemma MembersGoOn(ms: seq<Member>, x: string, ns: seq<Member>, y: string)
    requires ms != [] && ns != [] && MembersTail(ms, x) == MembersTail(ns, y)
    requires x != [] && x[0] == '}' && y != [] && y[0] == '}'
    ensures |ms| == 1 <==> |ns| == 1
    ensures |ms| == 1 ==> x == y && ms[1..] == ns[1..]
    ensures |ms| > 1 ==> UnparseMembers(ms[1..]) + x == UnparseMembers(ns[1..]) + y
  {
    if |ms| > 1 && |ns| > 1 { Behead(",", UnparseMembers(ms[1..]) + x, UnparseMembers(ns[1..]) + y); }
  }

  /** The members of an object from the k-th on. */
  lemma {:induction false} MembersUnique(t: Tree, k: nat, x: string, ns: seq<Member>, y: string)
    requires t.Obj? && k < |t.members| && Grammatical(t) && ns != [] && forall n | n in ns :: GrammaticalMember(n)
    requires UnparseMembers(t.members[k..]) + x == UnparseMembers(ns) + y
    requires x != [] && x[0] == '}' && y != [] && y[0] == '}'
    ensures t.members[k..] == ns && x == y
    decreases t, 0, |t.members| - k
  {
    var ms := t.members[k..];
    assert ms[0] == t.members[k] && t.members[k] in t.members && ns[0] in ns;
    MembersOpen(ms, x, ns, y);
    MemberUnique(t.members[k], MembersTail(ms, x), ns[0], MembersTail(ns, y));
    MembersGoOn(ms, x, ns, y);
    if |ms| > 1 {
      assert ms[1..] == t.members[k + 1..];
      MembersUnique(t, k + 1, x, ns[1..], y);
    }
  }

  lemma {:induction false} ObjectUnique(t: Tree, x: string, u: Tree, y: string)
    requires t.Obj? && u.Obj? && Grammatical(t) && Grammatical(u) && Unparse(t) + x == Unparse(u) + y
    ensures t == u && x == y
    decreases t, 1
  {
    ObjectParts(t.pad, t.members, x);
    ObjectParts(u.pad, u.members, y);
    var a, b := UnparseMembers(t.members) + ("}" + x), UnparseMembers(u.members) + ("}" + y);
    Behead("{", t.pad + a, u.pad + b);
    if t.members == [] || u.members == [] {
      NoMembers(t.pad, t.members, "}" + x, u.pad, u.members, "}" + y);
    } else {
      Unpadded(t.pad, a, u.pad, b);
      assert t.members[0..] == t.members;
      MembersUnique(t, 0, "}" + x, u.members, "}" + y);
    }
    Behead("}", x, y);
  }

  /** No text is two values, or one value ending in two places. */
  lemma {:induction false} ValueUnique(t: Tree, x: string, u: Tree, y: string)
    requires Grammatical(t) && Grammatical(u) && Unparse(t) + x == Unparse(u) + y && Follows(x) && Follows(y)
    ensures t == u && x == y
    decreases t, 2
  {
    FirstChar(t);
    FirstChar(u);
    assert (Unparse(t) + x)[0] == Unparse(t)[0] && (Unparse(u) + y)[0] == Unparse(u)[0];
    match t
    case Word(_) => WordUnique(t, x, u, y);
    case Number(_, _, _, _) => NumbersUnique(t, x, u, y);
    case Str(raw) => StrUnique(raw, x, u.raw, y);
    case Arr(_, _) => ArrayUnique(t, x, u, y);
    case Obj(_, _) => ObjectUnique(t, x, u, y);
  }

  // ---- Texts ----

  /** A text has at most one derivation, whitespace included. */
  lemma DerivationUnique(t: Tree, pre: string, post: string, u: Tree, pre': string, post': string, text: string)
    requires Derives(t, pre, post, text) && Derives(u, pre', post', text)
    ensures t == u && pre == pre' && post == post'
  {
    FirstChar(t);
    FirstChar(u);
    AppendAssociates(pre, Unparse(t), post);
    AppendAssociates(pre', Unparse(u), post');
    BlankUnique(pre, Unparse(t) + post, pre', Unparse(u) + post');
    ValueUnique(t, post, u, post');
  }
}
