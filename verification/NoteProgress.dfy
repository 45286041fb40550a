/** The note machine never leaves the model without a legal continuation. */
module NoteProgress {
  import opened Common
  import opened ResponseMachine
  import opened NoteContract
  import opened NoteLanguage

  /** An item that may be open. */
  predicate InItems(l: Limits, item: nat) {
    1 <= item <= l.maxItems
  }

  /** A state entered behind a field of an open item that is free text. */
  ghost predicate AfterField(l: Limits, s: State, index: nat) {
    index < ITEM_FIELDS && index != ID_FIELD && exists item: nat :: InItems(l, item) && s == FieldState(item, index + 1)
  }

  /** A literal of the contract, and what it leads to. */
  ghost predicate Spelled(l: Limits, text: string, cont: State) {
    match cont
    case Items(taken) => text == HEAD && taken == 0
    case Ids(item, count) => text == Opening(ID_FIELD) && InItems(l, item) && count == 0
    case Free(next) => exists index: nat :: AfterField(l, next, index) && text == Opening(index)
    case ItemEnd(item) => text == "}" && InItems(l, item)
    case Done => text == "}"
    case _ => false
  }

  /** What holds of every state reached from the start: it is one of the contract's, inside one of
      its literals or behind one of its fields, and its counters are within the limits. */
  ghost predicate Sound(l: Limits, s: State) {
    match s
    case Pre => true
    case Lit(text, index, cont) => index < |text| && Spelled(l, text, cont)
    case Free(IdMore(item, count)) => InItems(l, item) && 1 <= count <= l.maxIds
    case Free(cont) => exists index: nat :: AfterField(l, cont, index)
    case Items(taken) => taken == 0 || taken < l.maxItems
    case Ids(item, count) => InItems(l, item) && count < l.maxIds
    case IdMore(item, count) => InItems(l, item) && 1 <= count <= l.maxIds
    case ItemEnd(item) => InItems(l, item)
    case Done => true
  }

  lemma FieldStateSound(l: Limits, item: nat, index: nat)
    requires InItems(l, item)
    ensures Sound(l, FieldState(item, index))
  {
    if index < ITEM_FIELDS && index != ID_FIELD {
      assert AfterField(l, FieldState(item, index + 1), index);
    }
  }

  /** What a literal leads to is a state of the contract. */
  lemma SpelledSound(l: Limits, text: string, cont: State)
    requires l.maxItems == 0 || l.maxIds > 0
    requires Spelled(l, text, cont)
    ensures Sound(l, cont)
  {
    if cont.Free? {
      var index: nat :| AfterField(l, cont.cont, index) && text == Opening(index);
    }
  }

  lemma FreeSound(l: Limits, cont: State)
    requires Sound(l, Free(cont))
    ensures Sound(l, cont) && (cont.IdMore? || cont.Lit?)
  {
    if !cont.IdMore? {
      var index: nat :| AfterField(l, cont, index);
    }
  }

  lemma StepSound(l: Limits, s: State, c: char)
    requires l.maxItems == 0 || l.maxIds > 0
    requires Sound(l, s) && Step(l, s, c).Some?
    ensures Sound(l, Step(l, s, c).value)
  {
    match s
    case Lit(text, index, cont) => SpelledSound(l, text, cont);
    case Free(cont) => FreeSound(l, cont);
    case Items(taken) => if c == '{' && taken < l.maxItems { FieldStateSound(l, taken + 1, 0); }
    case IdMore(item, count) => FieldStateSound(l, item, ID_FIELD + 1);
    case _ =>
  }

  lemma {:induction false} RunSound(l: Limits, s: State, text: string)
    requires l.maxItems == 0 || l.maxIds > 0
    requires Sound(l, s) && NoteMachine(l).Run(s, text).Some?
    ensures Sound(l, NoteMachine(l).Run(s, text).value)
    decreases |text|
  {
    if text == [] {
    } else {
      StepSound(l, s, text[0]);
      RunSound(l, Step(l, s, text[0]).value, text[1..]);
    }
  }

  /** How far the state is from the end, ignoring literals and free text still to be read. */
  function Distance(s: State): nat {
    match s
    case Pre => 5
    case Lit(_, _, cont) => Distance(cont)
    case Free(cont) => Distance(cont)
    case Items(taken) => if taken == 0 then 0 else 4
    case Ids(_, _) => 3
    case IdMore(_, _) => 2
    case ItemEnd(_) => 1
    case Done => 0
  }

  lemma {:induction false} FieldStateDistance(item: nat, index: nat)
    ensures Distance(FieldState(item, index)) == if index <= ID_FIELD then 3 else 1
    decreases ITEM_FIELDS - index
  {
    if index < ITEM_FIELDS && index != ID_FIELD {
      FieldStateDistance(item, index + 1);
    }
  }

  /** The characters the contract itself is spelled with. */
  function Skeleton(): set<char> {
    Elements(HEAD) + Elements(Opening(0)) + Elements(Opening(1)) + Elements(Opening(2)) + Elements(Opening(3))
    + Elements(Opening(4)) + Elements("{\"]}")
  }

  /** What a continuation may have to write: a literal of the contract, or one of its marks. */
  ghost predicate Fixed(l: Limits, text: string, cont: State) {
    text == "{" || text == "\"" || text == "]" || text == "]}" || Spelled(l, text, cont)
  }

  ghost predicate Writes(l: Limits, chars: set<char>) {
    forall text, cont | Fixed(l, text, cont) :: Over(text, chars)
  }

  lemma OpeningSpelled(index: nat)
    requires index < ITEM_FIELDS
    ensures Over(Opening(index), Skeleton())
  {
    assert Elements(Opening(index)) <= Skeleton();
  }

  lemma MarksSpelled()
    ensures Over("{\"]}", Skeleton()) && Over(HEAD, Skeleton())
  {
  }

  lemma SkeletonWrites(l: Limits)
    ensures Writes(l, Skeleton())
  {
    MarksSpelled();
    var marks := "{\"]}";
    assert marks[0] in Skeleton() && marks[1] in Skeleton() && marks[2] in Skeleton() && marks[3] in Skeleton();
    forall text, cont | Fixed(l, text, cont) ensures Over(text, Skeleton()) {
      if cont.Ids? && Spelled(l, text, cont) {
        OpeningSpelled(ID_FIELD);
      } else if cont.Free? && Spelled(l, text, cont) {
        var index: nat :| AfterField(l, cont.cont, index) && text == Opening(index);
        OpeningSpelled(index);
      }
    }
  }

  lemma EntersField(l: Limits, item: nat, index: nat)
    requires InItems(l, item)
    ensures Sound(l, FieldState(item, index))
    ensures Distance(FieldState(item, index)) == if index <= ID_FIELD then 3 else 1
  {
    FieldStateSound(l, item, index);
    FieldStateDistance(item, index);
  }

  lemma FinishClosing(l: Limits, s: State, chars: set<char>) returns (text: string)
    requires (s == Items(0) || s.ItemEnd?) && Writes(l, chars)
    ensures Accepts(l, s, text) && Over(text, chars) && text != []
  {
    CloseRead(l, if s.ItemEnd? then s.item else 0);
    assert Fixed(l, "]}", Done);
    text := "]}";
  }

  lemma FinishHead(l: Limits, rest: string, chars: set<char>) returns (text: string)
    requires Writes(l, chars) && Accepts(l, Items(0), rest) && Over(rest, chars)
    ensures Accepts(l, Pre, text) && Over(text, chars) && text != []
  {
    HeadRead(l);
    NoteMachine(l).Chain(Pre, HEAD, Items(0), rest);
    assert Fixed(l, HEAD, Items(0));
    text := HEAD + rest;
  }

  lemma FinishLiteral(l: Limits, t: string, index: nat, cont: State, rest: string, chars: set<char>)
    returns (text: string)
    requires Writes(l, chars) && index < |t| && Spelled(l, t, cont) && Accepts(l, cont, rest) && Over(rest, chars)
    ensures Accepts(l, Lit(t, index, cont), text) && Over(text, chars) && text != []
  {
    LiteralRead(l, t, index, cont);
    NoteMachine(l).Chain(Lit(t, index, cont), t[index..], cont, rest);
    assert Fixed(l, t, cont);
    text := t[index..] + rest;
  }

  lemma FinishBy(l: Limits, s: State, c: char, t: State, rest: string, chars: set<char>) returns (text: string)
    requires Writes(l, chars) && (c == '{' || c == '"' || c == ']')
    requires Step(l, s, c) == Some(t) && Accepts(l, t, rest) && Over(rest, chars)
    ensures Accepts(l, s, text) && Over(text, chars) && text != []
  {
    assert Fixed(l, [c], t);
    text := [c] + rest;
    assert text[1..] == rest;
  }

  /** A continuation that completes the document, from any sound state, in the characters the
      contract is spelled with. */
  lemma {:induction false} Finish(l: Limits, s: State, chars: set<char>) returns (text: string)
    requires (l.maxItems == 0 || l.maxIds > 0) && Sound(l, s) && Writes(l, chars)
    ensures Accepts(l, s, text) && Over(text, chars)
    ensures s != Done ==> text != []
    decreases Distance(s), s
  {
    match s
    case Pre =>
      var rest := FinishClosing(l, Items(0), chars);
      text := FinishHead(l, rest, chars);
    case Lit(t, index, cont) =>
      SpelledSound(l, t, cont);
      var rest := Finish(l, cont, chars);
      text := FinishLiteral(l, t, index, cont, rest, chars);
    case Free(cont) =>
      FreeSound(l, cont);
      var rest := Finish(l, cont, chars);
      text := FinishBy(l, s, '"', cont, rest, chars);
    case Items(taken) =>
      if taken == 0 {
        text := FinishClosing(l, s, chars);
      } else {
        EntersField(l, taken + 1, 0);
        var rest := Finish(l, FieldState(taken + 1, 0), chars);
        text := FinishBy(l, s, '{', FieldState(taken + 1, 0), rest, chars);
      }
    case Ids(item, count) =>
      var end := Free(IdMore(item, count + 1));
      assert Distance(end) == Distance(end.cont) == 2;
      var rest := Finish(l, end, chars);
      text := FinishBy(l, s, '"', end, rest, chars);
    case IdMore(item, count) =>
      EntersField(l, item, ID_FIELD + 1);
      var rest := Finish(l, FieldState(item, ID_FIELD + 1), chars);
      text := FinishBy(l, s, ']', FieldState(item, ID_FIELD + 1), rest, chars);
    case ItemEnd(item) =>
      text := FinishClosing(l, s, chars);
    case Done =>
      text := [];
  }

  lemma ReachableFinishes(l: Limits, s: State)
    requires (l.maxItems == 0 || l.maxIds > 0) && NoteMachine(l).Reachable(s)
    ensures Sound(l, s) && NoteMachine(l).CanFinish(s) && NoteMachine(l).CanFinishWith(s, Skeleton())
  {
    var text :| NoteMachine(l).Run(Pre, text) == Some(s);
    RunSound(l, Pre, text);
    SkeletonWrites(l);
    var rest := Finish(l, s, Skeleton());
  }

  /** Where items are allowed and IDs are not, an opened item cannot be closed. */
  lemma OpenedIsStuck(l: Limits)
    requires l.maxItems > 0 && l.maxIds == 0
    ensures NoteMachine(l).Reachable(FieldState(1, 0)) && !NoteMachine(l).CanFinish(FieldState(1, 0))
  {
    var m := NoteMachine(l);
    var stuck := FieldState(1, 0);
    HeadRead(l);
    m.Chain(Pre, HEAD, Items(0), "{");
    OneRead(l, Items(0), '{', stuck);
    assert m.Reachable(stuck);
    if m.CanFinish(stuck) {
      var text :| m.Run(stuck, text) == Some(Done);
      var item, rest := FieldsNeeded(l, 1, 0, Item([], [], [], [], []), text);
    }
  }

  /** No reachable state is a dead end, unless items are allowed but no ID may be given. The
      guards at the two ceilings are what this rests on. */
  lemma NoDeadEnds(l: Limits)
    ensures (forall s :: NoteMachine(l).Reachable(s) ==> NoteMachine(l).CanFinish(s))
        <==> (l.maxItems == 0 || l.maxIds > 0)
  {
    if l.maxItems == 0 || l.maxIds > 0 {
      forall s | NoteMachine(l).Reachable(s) ensures NoteMachine(l).CanFinish(s) {
        ReachableFinishes(l, s);
      }
    } else {
      OpenedIsStuck(l);
    }
  }

  /** The registered ceilings are on the safe side. */
  lemma RegisteredNeverStuck(s: State)
    requires NoteMachine(REGISTERED).Reachable(s)
    ensures REGISTERED == Limits(8, 3) && NoteMachine(REGISTERED).CanFinish(s)
  {
    NoDeadEnds(REGISTERED);
  }
}
