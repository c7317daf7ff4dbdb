/** The UPDATE form: a SET input and a WHERE input per field, collected into
    two objects whose entries become the two clauses. */
module UpdateForm {
  import opened JsStrings
  import opened Schema
  import opened FormValues

  /** A plain object as its entries, in insertion order. */
  type Entries = seq<(string, JsValue)>

  /** `Object.keys`: the keys of the entries, in insertion order. */
  function Keys(entries: Entries): (r: seq<string>)
    ensures |r| == |entries|
    ensures forall i :: 0 <= i < |entries| ==> r[i] == entries[i].0
    decreases |entries|
  {
    if entries == [] then [] else [entries[0].0] + Keys(entries[1..])
  }

  /** An object never holds a key twice. */
  predicate DistinctKeys(entries: Entries) {
    forall i, j :: 0 <= i < j < |entries| ==> entries[i].0 != entries[j].0
  }

  /** `obj[key] = value`: an existing key keeps its place and takes the new
      value; a new key goes last. */
  function Assign(entries: Entries, key: string, value: JsValue): (r: Entries)
    ensures (key, value) in r
    ensures forall e :: e in r ==> e == (key, value) || e in entries
    ensures forall e :: e in entries && e.0 != key ==> e in r
    decreases |entries|
  {
    if entries == [] then [(key, value)]
    else if entries[0].0 == key then [(key, value)] + entries[1..]
    else [entries[0]] + Assign(entries[1..], key, value)
  }

  /** Assignment keeps the key order of the object: a new key goes last. */
  lemma {:induction false} AssignKeys(entries: Entries, key: string, value: JsValue)
    ensures Keys(Assign(entries, key, value)) ==
      if key in Keys(entries) then Keys(entries) else Keys(entries) + [key]
    decreases |entries|
  {
    var r := Assign(entries, key, value);
    if entries == [] {
    } else if entries[0].0 == key {
      assert Keys(r) == Keys(entries);
    } else {
      var k1 := Keys(entries[1..]);
      AssignKeys(entries[1..], key, value);
      assert Keys(entries) == [entries[0].0] + k1;
      assert Keys(r) == [entries[0].0] + Keys(Assign(entries[1..], key, value));
      InCons(entries[0].0, k1, key);
      if key !in k1 {
        assert [entries[0].0] + (k1 + [key]) == ([entries[0].0] + k1) + [key];
      }
    }
  }

  lemma InCons(h: string, s: seq<string>, x: string)
    ensures x in [h] + s <==> x == h || x in s
  {
    assert ([h] + s)[0] == h;
    assert ([h] + s)[1..] == s;
  }

  lemma DistinctTail(entries: Entries)
    requires entries != [] && DistinctKeys(entries)
    ensures DistinctKeys(entries[1..])
    ensures entries[0].0 !in Keys(entries[1..])
  {
    forall i, j | 0 <= i < j < |entries[1..]|
      ensures entries[1..][i].0 != entries[1..][j].0
    {
      assert entries[1..][i] == entries[i + 1] && entries[1..][j] == entries[j + 1];
    }
    forall j | 0 <= j < |entries[1..]|
      ensures Keys(entries[1..])[j] != entries[0].0
    {
      assert entries[1..][j] == entries[j + 1];
    }
  }

  lemma HeadStaysUnique(entries: Entries, key: string, value: JsValue)
    requires entries != [] && DistinctKeys(entries) && entries[0].0 != key
    ensures entries[0].0 !in Keys(Assign(entries[1..], key, value))
  {
    DistinctTail(entries);
    AssignKeys(entries[1..], key, value);
  }

  /** A new head whose key the tail lacks keeps the keys distinct. */
  lemma ConsDistinct(x: (string, JsValue), tail: Entries)
    requires DistinctKeys(tail) && x.0 !in Keys(tail)
    ensures DistinctKeys([x] + tail)
  {
    var r := [x] + tail;
    forall i, j | 0 <= i < j < |r|
      ensures r[i].0 != r[j].0
    {
      assert r[j] == tail[j - 1];
      if i > 0 {
        assert r[i] == tail[i - 1];
      } else {
        assert Keys(tail)[j - 1] == tail[j - 1].0;
      }
    }
  }

  /** Assignment never duplicates a key. */
  lemma {:induction false} AssignDistinct(entries: Entries, key: string, value: JsValue)
    requires DistinctKeys(entries)
    ensures DistinctKeys(Assign(entries, key, value))
    decreases |entries|
  {
    if entries != [] {
      DistinctTail(entries);
      if entries[0].0 == key {
        ConsDistinct((key, value), entries[1..]);
      } else {
        AssignDistinct(entries[1..], key, value);
        HeadStaysUnique(entries, key, value);
        ConsDistinct(entries[0], Assign(entries[1..], key, value));
      }
    }
  }

  /** One of the two objects `getUpdateFormData` fills: the inputs are named
      `prefix + field.name`, and a value other than `''` (a missing input's
      `undefined` included) is stored under the field's name. */
  function UpdateEntries(fields: seq<Field>, elements: map<string, string>, prefix: string): Entries
    decreases |fields|
  {
    if fields == [] then []
    else
      var f := fields[|fields| - 1];
      var prior := UpdateEntries(fields[..|fields| - 1], elements, prefix);
      var v := ElementValue(elements, prefix + f.name);
      if v != Str("") then Assign(prior, f.name, v) else prior
  }

  /** Each stored entry belongs to a schema field and holds that field's
      non-empty input; a field is stored exactly when its input is not `''`. */
  lemma UpdateEntriesExactly(fields: seq<Field>, elements: map<string, string>, prefix: string)
    ensures DistinctKeys(UpdateEntries(fields, elements, prefix))
    ensures forall e :: e in UpdateEntries(fields, elements, prefix) ==>
      (exists f :: f in fields && f.name == e.0) &&
      e.1 == ElementValue(elements, prefix + e.0) && e.1 != Str("")
    ensures forall f :: f in fields && ElementValue(elements, prefix + f.name) != Str("") ==>
      f.name in Keys(UpdateEntries(fields, elements, prefix))
  {
    UpdateEntriesDistinct(fields, elements, prefix);
    UpdateEntriesHold(fields, elements, prefix);
    UpdateEntriesCover(fields, elements, prefix);
  }

  lemma {:induction false} UpdateEntriesDistinct(fields: seq<Field>, elements: map<string, string>, prefix: string)
    ensures DistinctKeys(UpdateEntries(fields, elements, prefix))
    decreases |fields|
  {
    if fields != [] {
      var init := fields[..|fields| - 1];
      var f := fields[|fields| - 1];
      UpdateEntriesDistinct(init, elements, prefix);
      AssignDistinct(UpdateEntries(init, elements, prefix), f.name, ElementValue(elements, prefix + f.name));
    }
  }

  lemma {:induction false} UpdateEntriesHold(fields: seq<Field>, elements: map<string, string>, prefix: string)
    ensures forall e :: e in UpdateEntries(fields, elements, prefix) ==>
      (exists f :: f in fields && f.name == e.0) &&
      e.1 == ElementValue(elements, prefix + e.0) && e.1 != Str("")
    decreases |fields|
  {
    if fields != [] {
      var init := fields[..|fields| - 1];
      var f := fields[|fields| - 1];
      UpdateEntriesHold(init, elements, prefix);
      forall e | e in UpdateEntries(fields, elements, prefix)
        ensures (exists g :: g in fields && g.name == e.0) &&
          e.1 == ElementValue(elements, prefix + e.0) && e.1 != Str("")
      {
        if e in UpdateEntries(init, elements, prefix) {
          var g :| g in init && g.name == e.0;
          assert g in fields;
        } else {
          assert f in fields;
        }
      }
    }
  }

  lemma {:induction false} UpdateEntriesCover(fields: seq<Field>, elements: map<string, string>, prefix: string)
    ensures forall f :: f in fields && ElementValue(elements, prefix + f.name) != Str("") ==>
      f.name in Keys(UpdateEntries(fields, elements, prefix))
    decreases |fields|
  {
    if fields != [] {
      var init := fields[..|fields| - 1];
      var f := fields[|fields| - 1];
      assert fields == init + [f];
      UpdateEntriesCover(init, elements, prefix);
      var prior := UpdateEntries(init, elements, prefix);
      AssignKeys(prior, f.name, ElementValue(elements, prefix + f.name));
      forall g | g in fields && ElementValue(elements, prefix + g.name) != Str("")
        ensures g.name in Keys(UpdateEntries(fields, elements, prefix))
      {
        if g != f {
          assert g in init;
          assert g.name in Keys(prior);
        }
      }
    }
  }

  datatype Clause = SetPart | WherePart

  /** What one entry contributes: nothing when no field has its name, one
      piece of text, or the `TypeError` that `val.replace` raises on a text
      field whose value is not a string. */
  datatype Piece = Skip | Text(text: string) | Thrown

  /** `schema.fields.find(f => f.name === name)`. */
  function FindField(fields: seq<Field>, name: string): (r: Option<Field>)
    ensures r.Some? <==> exists f :: f in fields && f.name == name
    ensures r.Some? ==> r.value in fields && r.value.name == name
    decreases |fields|
  {
    if fields == [] then None
    else if fields[0].name == name then Some(fields[0])
    else FindField(fields[1..], name)
  }

  function Render(clause: Clause, fields: seq<Field>, entry: (string, JsValue)): Piece {
    var (name, val) := entry;
    match FindField(fields, name)
    case None => Skip
    case Some(f) =>
      if IsBare(f.ftype) then Text(name + " = " + Show(val))
      else if f.ftype == Date then Text(name + " = '" + Show(val) + "'")
      else if !val.Str? then Thrown
      else if clause == SetPart then Text(name + " = " + QuoteLiteral(val.s))
      else Text(name + " LIKE " + LikeLiteral(val.s))
  }

  /** The SET or WHERE pieces in entry order, or `None` once an entry throws. */
  function Pieces(clause: Clause, fields: seq<Field>, entries: Entries): Option<seq<string>>
    decreases |entries|
  {
    if entries == [] then Some([])
    else
      match Pieces(clause, fields, entries[..|entries| - 1])
      case None => None
      case Some(ps) =>
        match Render(clause, fields, entries[|entries| - 1])
        case Skip => Some(ps)
        case Text(t) => Some(ps + [t])
        case Thrown => None
  }

  /** Collecting is a fold: the pieces of `a + b` are those of `a` followed by
      those of `b`, and a throw in either part is a throw of the whole. */
  lemma {:induction false} PiecesAppend(clause: Clause, fields: seq<Field>, a: Entries, b: Entries)
    ensures Pieces(clause, fields, a + b) ==
      if Pieces(clause, fields, a).Some? && Pieces(clause, fields, b).Some?
      then Some(Pieces(clause, fields, a).value + Pieces(clause, fields, b).value)
      else None
    decreases |b|
  {
    if b == [] {
      assert a + b == a;
      if Pieces(clause, fields, a).Some? {
        assert Pieces(clause, fields, a).value + [] == Pieces(clause, fields, a).value;
      }
    } else {
      var init := b[..|b| - 1];
      assert (a + b)[..|a + b| - 1] == a + init;
      assert (a + b)[|a + b| - 1] == b[|b| - 1];
      PiecesAppend(clause, fields, a, init);
      if Pieces(clause, fields, a).Some? && Pieces(clause, fields, init).Some? {
        var x, y := Pieces(clause, fields, a).value, Pieces(clause, fields, init).value;
        match Render(clause, fields, b[|b| - 1])
        case Skip =>
        case Text(t) => assert x + (y + [t]) == (x + y) + [t];
        case Thrown =>
      }
    }
  }

  /** An entry whose name is not a schema field changes nothing, wherever it
      stands. */
  lemma UnknownEntrySkipped(clause: Clause, fields: seq<Field>, a: Entries, e: (string, JsValue), b: Entries)
    requires forall f :: f in fields ==> f.name != e.0
    ensures Pieces(clause, fields, a + [e] + b) == Pieces(clause, fields, a + b)
  {
    assert Pieces(clause, fields, [e]) == Some([]) by {
      assert [e][..0] == [];
    }
    PiecesAppend(clause, fields, a, [e]);
    PiecesAppend(clause, fields, a + [e], b);
    PiecesAppend(clause, fields, a, b);
  }

  /** Collecting throws exactly when some entry names a text field and holds
      no string. */
  lemma {:induction false} PiecesThrowIff(clause: Clause, fields: seq<Field>, entries: Entries)
    ensures Pieces(clause, fields, entries).None? <==>
      exists i :: 0 <= i < |entries| && Render(clause, fields, entries[i]) == Thrown
    decreases |entries|
  {
    if entries != [] {
      var init := entries[..|entries| - 1];
      PiecesThrowIff(clause, fields, init);
      if exists i :: 0 <= i < |init| && Render(clause, fields, init[i]) == Thrown {
        var i :| 0 <= i < |init| && Render(clause, fields, init[i]) == Thrown;
        assert entries[i] == init[i];
      }
      if exists i :: 0 <= i < |entries| && Render(clause, fields, entries[i]) == Thrown {
        var i :| 0 <= i < |entries| && Render(clause, fields, entries[i]) == Thrown;
        if i < |init| {
          assert init[i] == entries[i];
        }
      }
    }
  }

  /** Numbers and booleans are written bare and dates between quotes; text
      is a literal the engine reads back as the value in SET, and as the
      pattern `%v%` in WHERE. */
  lemma RenderForms(clause: Clause, fields: seq<Field>, name: string, val: JsValue)
    requires FindField(fields, name).Some?
    ensures var f := FindField(fields, name).value;
      && (IsBare(f.ftype) ==> Render(clause, fields, (name, val)) == Text(name + " = " + Show(val)))
      && (f.ftype == Date ==> Render(clause, fields, (name, val)) == Text(name + " = '" + Show(val) + "'"))
      && (f.ftype == Other && val.Str? && clause == SetPart ==>
            exists lit :: Render(clause, fields, (name, val)) == Text(name + " = " + lit) && ReadLiteral(lit) == Some(val.s))
      && (f.ftype == Other && val.Str? && clause == WherePart ==>
            exists lit :: Render(clause, fields, (name, val)) == Text(name + " LIKE " + lit) && ReadLiteral(lit) == Some("%" + val.s + "%"))
  {
    if val.Str? {
      QuoteRoundTrip(val.s);
      LikeLiteralReadsBack(val.s);
    }
  }

  function SetText(sets: seq<string>): string {
    if |sets| > 0 then "SET " + Join(sets, ", ") else "SET ..."
  }

  /** The statement `buildUpdateSQL` returns, `None` when it throws. */
  function UpdateSql(tableName: string, fields: seq<Field>, setData: Entries, whereData: Entries): Option<string> {
    match Pieces(SetPart, fields, setData)
    case None => None
    case Some(sets) =>
      match Pieces(WherePart, fields, whereData)
      case None => None
      case Some(filters) => Some("UPDATE " + tableName + " " + SetText(sets) + " " + WhereClause(filters) + ";")
  }

  /** The statement has the `UPDATE t <set> <where>;` shape, with `SET ...`
      when nothing is set and no WHERE clause when nothing filters. */
  lemma UpdateShape(tableName: string, fields: seq<Field>, setData: Entries, whereData: Entries)
    ensures Pieces(SetPart, fields, setData) == Some([]) && Pieces(WherePart, fields, whereData).Some? ==>
      UpdateSql(tableName, fields, setData, whereData) ==
        Some("UPDATE " + tableName + " " + "SET ..." + " " + WhereClause(Pieces(WherePart, fields, whereData).value) + ";")
    ensures Pieces(SetPart, fields, setData).Some? && Pieces(WherePart, fields, whereData) == Some([]) ==>
      UpdateSql(tableName, fields, setData, whereData) ==
        Some("UPDATE " + tableName + " " + SetText(Pieces(SetPart, fields, setData).value) + " " + ";")
  {
    var sets := Pieces(SetPart, fields, setData);
    if sets.Some? && Pieces(WherePart, fields, whereData) == Some([]) {
      var head := "UPDATE " + tableName + " " + SetText(sets.value) + " ";
      assert head + "" == head;
    }
  }

  /** Entries that all hold strings never throw. */
  lemma StringsNeverThrow(clause: Clause, fields: seq<Field>, entries: Entries)
    requires forall e :: e in entries ==> e.1.Str?
    ensures Pieces(clause, fields, entries).Some?
  {
    PiecesThrowIff(clause, fields, entries);
  }

  /** Data read from a form whose inputs all exist never makes the builder
      throw. */
  lemma FormDataBuilds(tableName: string, fields: seq<Field>, elements: map<string, string>)
    requires forall f :: f in fields ==> "set-field-" + f.name in elements && "where-field-" + f.name in elements
    ensures UpdateSql(tableName, fields, UpdateEntries(fields, elements, "set-field-"),
                      UpdateEntries(fields, elements, "where-field-")).Some?
  {
    AllStrings(fields, elements, "set-field-");
    AllStrings(fields, elements, "where-field-");
    StringsNeverThrow(SetPart, fields, UpdateEntries(fields, elements, "set-field-"));
    StringsNeverThrow(WherePart, fields, UpdateEntries(fields, elements, "where-field-"));
  }

  lemma AllStrings(fields: seq<Field>, elements: map<string, string>, prefix: string)
    requires forall f :: f in fields ==> prefix + f.name in elements
    ensures forall e :: e in UpdateEntries(fields, elements, prefix) ==> e.1.Str?
  {
    UpdateEntriesExactly(fields, elements, prefix);
  }

  method GetUpdateFormData(fields: seq<Field>, elements: map<string, string>) returns (set_: Entries, where: Entries)
    ensures set_ == UpdateEntries(fields, elements, "set-field-")
    ensures where == UpdateEntries(fields, elements, "where-field-")
  {
    set_, where := [], [];
    for i := 0 to |fields|
      invariant set_ == UpdateEntries(fields[..i], elements, "set-field-")
      invariant where == UpdateEntries(fields[..i], elements, "where-field-")
    {
      var field := fields[i];
      assert fields[..i + 1][..i] == fields[..i];
      var setVal := ElementValue(elements, "set-field-" + field.name);
      if setVal != Str("") {
        set_ := Assign(set_, field.name, setVal);
      }
      var whereVal := ElementValue(elements, "where-field-" + field.name);
      if whereVal != Str("") {
        where := Assign(where, field.name, whereVal);
      }
    }
    assert fields[..|fields|] == fields;
  }

  /** One `Object.entries(...).forEach` loop of `buildUpdateSQL`. */
  method CollectPieces(clause: Clause, fields: seq<Field>, entries: Entries) returns (pieces: Option<seq<string>>)
    ensures pieces == Pieces(clause, fields, entries)
  {
    var acc: seq<string> := [];
    for i := 0 to |entries|
      invariant Pieces(clause, fields, entries[..i]) == Some(acc)
    {
      var (name, val) := entries[i];
      assert entries[..i + 1][..i] == entries[..i];
      assert entries[..i + 1][i] == entries[i];
      var field := FindField(fields, name);
      if field.None? {
        continue;
      }
      var f := field.value;
      var piece;
      if IsBare(f.ftype) {
        piece := name + " = " + Show(val);
      } else if f.ftype == Date {
        piece := name + " = '" + Show(val) + "'";
      } else if !val.Str? {
        assert Pieces(clause, fields, entries[..i + 1]) == None;
        PiecesAppend(clause, fields, entries[..i + 1], entries[i + 1..]);
        assert entries[..i + 1] + entries[i + 1..] == entries;
        return None;
      } else if clause == SetPart {
        piece := name + " = '" + EscapeQuotes(val.s) + "'";
      } else {
        piece := name + " LIKE '%" + EscapeQuotes(val.s) + "%'";
      }
      assert Render(clause, fields, entries[i]) == Text(piece);
      acc := acc + [piece];
    }
    assert entries[..|entries|] == entries;
    pieces := Some(acc);
  }

  method BuildUpdateSql(tableName: string, fields: seq<Field>, setData: Entries, whereData: Entries)
    returns (sql: Option<string>)
    ensures sql == UpdateSql(tableName, fields, setData, whereData)
  {
    var sets := CollectPieces(SetPart, fields, setData);
    if sets.None? {
      return None;
    }
    var filters := CollectPieces(WherePart, fields, whereData);
    if filters.None? {
      return None;
    }
    var setClause := if |sets.value| > 0 then "SET " + Join(sets.value, ", ") else "SET ...";
    var whereClause := if |filters.value| > 0 then "WHERE " + Join(filters.value, " AND ") else "";
    sql := Some("UPDATE " + tableName + " " + setClause + " " + whereClause + ";");
  }
}
