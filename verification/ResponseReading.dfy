/** `decode_classification` on parsed JSON: the shape of a response, and the rows in it. */
module ResponseReading {
  import opened Common
  import opened JsonData
  import opened Classification

  datatype ReadError = RepeatedKey | NotItems | MalformedRow(index: nat) | BadRows(error: DecodeError)

  /** No object, at any depth, names a key twice. */
  predicate Unrepeated(j: Json) {
    match j
    case JArray(items) => forall i | 0 <= i < |items| :: Unrepeated(items[i])
    case JObject(pairs) =>
      && (forall i, k | 0 <= i < k < |pairs| :: pairs[i].0 != pairs[k].0)
      && forall i | 0 <= i < |pairs| :: Unrepeated(pairs[i].1)
    case _ => true
  }

  /** One item: exactly a locator and a verdict, in that order, both strings. */
  function RowOf(j: Json): Option<Row> {
    match j
    case JObject(pairs) =>
      if |pairs| == 2 && pairs[0].0 == "candidate_id" && pairs[1].0 == "verdict"
        && pairs[0].1.JString? && pairs[1].1.JString? then Some(Row(pairs[0].1.text, pairs[1].1.text))
      else None
    case _ => None
  }

  /** The rows up to the first that is malformed. */
  function WellFormed(items: seq<Json>): (rows: seq<Row>)
    ensures |rows| <= |items|
    ensures forall i | 0 <= i < |rows| :: RowOf(items[i]) == Some(rows[i])
    ensures |rows| < |items| ==> RowOf(items[|rows|]).None?
  {
    if items == [] || RowOf(items[0]).None? then []
    else
      var rest := WellFormed(items[1..]);
      [RowOf(items[0]).value] + rest
  }

  /** The items of an object of that one key. */
  function ItemsOf(parsed: Json): Option<seq<Json>> {
    match parsed
    case JObject(pairs) =>
      if |pairs| == 1 && pairs[0].0 == "items" && pairs[0].1.JArray? then Some(pairs[0].1.items) else None
    case _ => None
  }

  function DecodeItems(items: seq<Json>, ids: seq<string>): Result<Decoded, ReadError>
    requires ValidIds(ids)
  {
    var rows := WellFormed(items);
    if |items| != |ids| then Refused(BadRows(WrongCardinality))
    else
      var fault := FirstFault(rows, Locators(|ids|), 0);
      if fault.Some? then Refused(BadRows(fault.value))
      else if |rows| < |items| then Refused(MalformedRow(|rows|))
      else
        match Decode(rows, ids)
        case Ok(decoded) => Ok(decoded)
        case Refused(e) => Refused(BadRows(e))
  }

  /** `decode_classification` on parsed JSON: the shape, then the rows one by one. */
  function DecodeJson(parsed: Json, ids: seq<string>): Result<Decoded, ReadError> {
    if !ValidIds(ids) then Refused(BadRows(BadCandidateIds))
    else if !Unrepeated(parsed) then Refused(RepeatedKey)
    else if ItemsOf(parsed).None? then Refused(NotItems)
    else DecodeItems(ItemsOf(parsed).value, ids)
  }

  /** A reading is accepted exactly when it is an object of the one key `items`, no object in it
      repeats a key, and its items are all rows, which name each offered locator once. It decodes as
      those rows do. */
  lemma ReadsPermutations(parsed: Json, ids: seq<string>)
    ensures DecodeJson(parsed, ids).Ok? <==>
      && ValidIds(ids) && Unrepeated(parsed) && ItemsOf(parsed).Some?
      && var items := ItemsOf(parsed).value;
         |WellFormed(items)| == |items| && Permutes(WellFormed(items), Locators(|ids|))
    ensures DecodeJson(parsed, ids).Ok? ==>
      Decode(WellFormed(ItemsOf(parsed).value), ids) == Ok(DecodeJson(parsed, ids).value)
  {
    if ValidIds(ids) && ItemsOf(parsed).Some? {
      var rows := WellFormed(ItemsOf(parsed).value);
      DecodesPermutations(rows, ids);
      FaultFree(rows, Locators(|ids|), 0);
    }
  }

  ghost function ItemOf(row: Row): Json {
    JObject([("candidate_id", JString(row.locator)), ("verdict", JString(row.verdict))])
  }

  /** The value that says the rows: an object of the one key `items`, with two strings a row. */
  ghost function JsonOf(rows: seq<Row>): Json {
    JObject([("items", JArray(seq(|rows|, i requires 0 <= i < |rows| => ItemOf(rows[i]))))])
  }

  lemma RowIs(j: Json, row: Row)
    ensures RowOf(j) == Some(row) <==> j == ItemOf(row)
  {
    if RowOf(j) == Some(row) {
      assert j.pairs == ItemOf(row).pairs;
    }
  }

  lemma RowsAre(parsed: Json, rows: seq<Row>)
    ensures ItemsOf(parsed).Some? && WellFormed(ItemsOf(parsed).value) == rows && |ItemsOf(parsed).value| == |rows|
      <==> parsed == JsonOf(rows)
  {
    if ItemsOf(parsed).Some? {
      var items := ItemsOf(parsed).value;
      assert parsed.pairs == [("items", JArray(items))];
      if WellFormed(items) == rows && |items| == |rows| {
        forall i | 0 <= i < |items| ensures items[i] == ItemOf(rows[i]) {
          RowIs(items[i], rows[i]);
        }
        assert items == seq(|rows|, i requires 0 <= i < |rows| => ItemOf(rows[i]));
      }
    }
    var items := ItemsOf(JsonOf(rows)).value;
    forall i | 0 <= i < |items| ensures RowOf(items[i]) == Some(rows[i]) {
      RowIs(items[i], rows[i]);
    }
    assert WellFormed(items) == rows;
  }

  lemma SaysOnce(rows: seq<Row>)
    ensures Unrepeated(JsonOf(rows))
  {
    forall i | 0 <= i < |rows| ensures Unrepeated(ItemOf(rows[i])) {
      assert Unrepeated(JString(rows[i].locator)) && Unrepeated(JString(rows[i].verdict));
    }
    assert Unrepeated(JArray(seq(|rows|, i requires 0 <= i < |rows| => ItemOf(rows[i]))));
  }

  /** Accepted are exactly the values that say rows which name each offered locator once with one of
      the two words, and they decode as those rows do. */
  lemma AcceptsExactly(parsed: Json, ids: seq<string>)
    ensures DecodeJson(parsed, ids).Ok? <==>
      && 1 <= |ids| <= 99 && "" !in ids && Distinct(ids)
      && exists rows :: parsed == JsonOf(rows) && Permutes(rows, Locators(|ids|))
    ensures forall rows | DecodeJson(parsed, ids).Ok? && parsed == JsonOf(rows) ::
      Decode(rows, ids) == Ok(DecodeJson(parsed, ids).value)
  {
    ReadsPermutations(parsed, ids);
    if DecodeJson(parsed, ids).Ok? {
      RowsAre(parsed, WellFormed(ItemsOf(parsed).value));
    }
    forall rows | parsed == JsonOf(rows)
      ensures ItemsOf(parsed).Some? && WellFormed(ItemsOf(parsed).value) == rows && Unrepeated(parsed)
      ensures |ItemsOf(parsed).value| == |rows|
    {
      RowsAre(parsed, rows);
      SaysOnce(rows);
    }
  }

  // ---- Repeated keys ----

  /** The value found along a path of places, if there is one. */
  ghost function At(j: Json, path: seq<nat>): Option<Json> {
    if path == [] then Some(j)
    else
      match j
      case JArray(items) => if path[0] < |items| then At(items[path[0]], path[1..]) else None
      case JObject(pairs) => if path[0] < |pairs| then At(pairs[path[0]].1, path[1..]) else None
      case _ => None
  }

  /** At the end of the path stands an object that names a key twice. */
  ghost predicate RepeatsAt(j: Json, path: seq<nat>) {
    match At(j, path)
    case Some(JObject(pairs)) => exists i, k :: 0 <= i < k < |pairs| && pairs[i].0 == pairs[k].0
    case _ => false
  }

  lemma RepeatsWithin(j: Json, k: nat, path: seq<nat>)
    requires RepeatsAt(j, [k] + path)
    ensures j.JArray? ==> k < |j.items| && RepeatsAt(j.items[k], path)
    ensures j.JObject? ==> k < |j.pairs| && RepeatsAt(j.pairs[k].1, path)
    ensures j.JArray? || j.JObject?
  {
    assert ([k] + path)[1..] == path;
  }

  /** A value passes unless an object somewhere in it names a key twice. */
  lemma {:induction false} UnrepeatedMeans(j: Json)
    ensures Unrepeated(j) <==> forall path :: !RepeatsAt(j, path)
  {
    match j {
      case JArray(items) =>
        forall i | 0 <= i < |items| ensures Unrepeated(items[i]) <==> forall path :: !RepeatsAt(items[i], path) {
          UnrepeatedMeans(items[i]);
        }
        forall i, path | 0 <= i < |items| && RepeatsAt(items[i], path) ensures RepeatsAt(j, [i] + path) {
          assert ([i] + path)[1..] == path;
        }
      case JObject(pairs) =>
        forall i | 0 <= i < |pairs| ensures Unrepeated(pairs[i].1) <==> forall path :: !RepeatsAt(pairs[i].1, path) {
          UnrepeatedMeans(pairs[i].1);
        }
        forall i, path | 0 <= i < |pairs| && RepeatsAt(pairs[i].1, path) ensures RepeatsAt(j, [i] + path) {
          assert ([i] + path)[1..] == path;
        }
        assert RepeatsAt(j, []) <==> exists i, k :: 0 <= i < k < |pairs| && pairs[i].0 == pairs[k].0;
      case _ =>
    }
    forall path | path != [] && RepeatsAt(j, path) ensures !Unrepeated(j) {
      assert path == [path[0]] + path[1..];
      RepeatsWithin(j, path[0], path[1..]);
    }
  }

  /** What is read decides the candidates asked about, once each and in order. */
  lemma ReadDecides(parsed: Json, ids: seq<string>)
    requires DecodeJson(parsed, ids).Ok?
    ensures var items := DecodeJson(parsed, ids).value.items;
            |items| == |ids| && forall k | 0 <= k < |ids| :: items[k].id == ids[k]
  {
    ReadsPermutations(parsed, ids);
    DecodesPermutations(WellFormed(ItemsOf(parsed).value), ids);
  }
}
