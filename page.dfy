/** The table page's state: the pasted text, the parsed rows, the column
    definition, the columns and the filter fields, and the handlers that
    change them. */
module Page {
  import opened Common
  import opened JsValues
  import opened Schema
  import opened Columns
  import opened Constants

  /** `Object.keys(parsedData[0] || {})`: the column names come from the
      first row alone. */
  function FirstRowKeys(data: seq<Row>): seq<string>
  {
    if data == [] then [] else data[0].keys
  }

  /** `!newColumnTypes[key]`: the key is missing, or holds the empty type
      name, the one falsy string. */
  predicate Unset(def: Definition, key: string)
  {
    key !in def.types || TypeName(def.types[key]) == ""
  }

  /** The `forEach` of `handleParseData`: every key without a type gets
      `"string"`, in key order. */
  function MergeKeys(def: Definition, keys: seq<string>): (r: Definition)
    requires def.Valid()
    ensures r.Valid()
    ensures |r.keys| <= |def.keys| + |keys|
  {
    if keys == [] then def
    else
      var d := MergeKeys(def, keys[..|keys| - 1]);
      var k := keys[|keys| - 1];
      if Unset(d, k) then Put(d, k, String) else d
  }

  /** The merge adds exactly the listed keys that were missing. */
  lemma {:induction false} MergeKeysDomain(def: Definition, keys: seq<string>)
    requires def.Valid()
    ensures forall k :: k in MergeKeys(def, keys).types <==> k in def.types || k in keys
  {
    if keys != [] {
      MergeKeysDomain(def, keys[..|keys| - 1]);
      assert keys == keys[..|keys| - 1] + [keys[|keys| - 1]];
    }
  }

  /** A type already set is kept, a key that had none gets `"string"`, and
      a key outside the list is left alone. */
  lemma MergeKeysTypes(def: Definition, keys: seq<string>)
    requires def.Valid()
    ensures var r := MergeKeys(def, keys);
            (forall k :: k in def.types && !Unset(def, k) ==> k in r.types && r.types[k] == def.types[k])
            && (forall k :: k in keys && Unset(def, k) ==> k in r.types && r.types[k] == String)
            && (forall k :: k in r.types && k !in keys ==> k in def.types && r.types[k] == def.types[k])
  {
    MergeKeysKeeps(def, keys);
    MergeKeysNewString(def, keys);
    MergeKeysOutside(def, keys);
  }

  lemma {:induction false} MergeKeysKeeps(def: Definition, keys: seq<string>)
    requires def.Valid()
    ensures forall k :: k in def.types && !Unset(def, k) ==>
              k in MergeKeys(def, keys).types && MergeKeys(def, keys).types[k] == def.types[k]
  {
    if keys != [] {
      MergeKeysKeeps(def, keys[..|keys| - 1]);
    }
  }

  lemma {:induction false} MergeKeysOutside(def: Definition, keys: seq<string>)
    requires def.Valid()
    ensures forall k :: k in MergeKeys(def, keys).types && k !in keys ==>
              k in def.types && MergeKeys(def, keys).types[k] == def.types[k]
  {
    if keys != [] {
      var init := keys[..|keys| - 1];
      MergeKeysOutside(def, init);
      assert keys == init + [keys[|keys| - 1]];
    }
  }

  lemma {:induction false} MergeKeysNewString(def: Definition, keys: seq<string>)
    requires def.Valid()
    ensures forall k :: k in keys && Unset(def, k) ==>
              k in MergeKeys(def, keys).types && MergeKeys(def, keys).types[k] == String
  {
    if keys != [] {
      var init := keys[..|keys| - 1];
      MergeKeysNewString(def, init);
      MergeKeysOutside(def, init);
      assert keys == init + [keys[|keys| - 1]];
    }
  }

  /** After the merge every listed key has a type. */
  lemma {:induction false} MergeKeysSetsAll(def: Definition, keys: seq<string>)
    requires def.Valid()
    ensures forall k :: k in keys ==> !Unset(MergeKeys(def, keys), k)
  {
    if keys != [] {
      var init := keys[..|keys| - 1];
      MergeKeysSetsAll(def, init);
      assert keys == init + [keys[|keys| - 1]];
    }
  }

  /** The existing keys stay first and in their order. */
  lemma {:induction false} MergeKeysOrder(def: Definition, keys: seq<string>)
    requires def.Valid()
    ensures |def.keys| <= |MergeKeys(def, keys).keys|
    ensures MergeKeys(def, keys).keys[..|def.keys|] == def.keys
  {
    if keys != [] {
      var init := keys[..|keys| - 1];
      MergeKeysOrder(def, init);
      var d := MergeKeys(def, init);
      var r := MergeKeys(def, keys);
      if r != d {
        assert r.keys[..|d.keys|] == d.keys;
        assert r.keys[..|def.keys|] == d.keys[..|def.keys|];
      }
    }
  }

  /** Merging keys that all have a type already changes nothing. */
  lemma {:induction false} MergeOfSetKeys(def: Definition, keys: seq<string>)
    requires def.Valid()
    requires forall k :: k in keys ==> !Unset(def, k)
    ensures MergeKeys(def, keys) == def
  {
    if keys != [] {
      MergeOfSetKeys(def, keys[..|keys| - 1]);
    }
  }

  /** Parsing the same data twice gives the definition the first parse
      gave, and an empty parse adds no column. */
  lemma MergeIdempotent(def: Definition, data: seq<Row>)
    requires def.Valid()
    ensures var r := MergeKeys(def, FirstRowKeys(data));
            MergeKeys(r, FirstRowKeys(data)) == r
    ensures MergeKeys(def, FirstRowKeys([])) == def
  {
    MergeKeysSetsAll(def, FirstRowKeys(data));
    MergeOfSetKeys(MergeKeys(def, FirstRowKeys(data)), FirstRowKeys(data));
  }

  /** One more key extends the merge by that key alone. */
  lemma MergeStep(def: Definition, keys: seq<string>, i: nat)
    requires def.Valid() && i < |keys|
    ensures var d := MergeKeys(def, keys[..i]);
            MergeKeys(def, keys[..i + 1]) == if Unset(d, keys[i]) then Put(d, keys[i], String) else d
  {
    assert keys[..i + 1][..i] == keys[..i];
  }

  /** The copy-and-assign loop of `handleParseData`. */
  method MergeLoop(previous: Definition, keys: seq<string>) returns (newColumnTypes: Definition)
    requires previous.Valid()
    ensures newColumnTypes == MergeKeys(previous, keys)
  {
    newColumnTypes := previous;
    var i := 0;
    while i < |keys|
      invariant 0 <= i <= |keys|
      invariant newColumnTypes == MergeKeys(previous, keys[..i])
    {
      MergeStep(previous, keys, i);
      var key := keys[i];
      newColumnTypes := if Unset(newColumnTypes, key) then Put(newColumnTypes, key, String) else newColumnTypes;
      i := i + 1;
    }
    assert keys[..i] == keys;
  }

  /** The page's state. */
  class PageState {
    var inputData: string
    var data: seq<Row>
    var definition: Definition
    var columns: seq<Column>
    var filterFields: seq<FilterField>

    predicate Valid()
      reads this
    {
      definition.Valid()
    }

    constructor ()
      ensures Valid()
      ensures inputData == [] && data == [] && definition == EmptyDefinition
      ensures columns == [] && filterFields == []
    {
      inputData := [];
      data := [];
      definition := EmptyDefinition;
      columns := [];
      filterFields := [];
    }

    /** The text area's `onChange`. */
    method HandleInputChange(text: string)
      modifies this
      ensures inputData == text
      ensures data == old(data) && definition == old(definition)
      ensures columns == old(columns) && filterFields == old(filterFields)
    {
      inputData := text;
    }

    /** `handleParseData`. `parsed` is what `parseCSV(inputData)` returns
      or throws; a throw is caught and changes nothing. */
    method HandleParseData(parsed: Result<seq<Row>>)
      requires Valid()
      modifies this
      ensures Valid()
      ensures parsed.Fail? ==> data == old(data) && definition == old(definition) && columns == old(columns)
      ensures parsed.Ok? ==> data == parsed.value
                             && definition == MergeKeys(old(definition), FirstRowKeys(parsed.value))
                             && columns == MakeColumns(definition)
      ensures inputData == old(inputData) && filterFields == old(filterFields)
    {
      if parsed.Fail? {
        return;
      }
      var newColumnTypes := MergeLoop(definition, FirstRowKeys(parsed.value));
      data := parsed.value;
      definition := newColumnTypes;
      columns := MakeColumns(newColumnTypes);
    }

    /** `handleColumnTypeChange`: one key gets the new type. The columns are
      not rebuilt. */
    method HandleColumnTypeChange(column: string, t: ColumnType)
      requires Valid() && WellNamed(t)
      modifies this
      ensures Valid()
      ensures definition == Put(old(definition), column, t)
      ensures data == old(data) && columns == old(columns)
      ensures inputData == old(inputData) && filterFields == old(filterFields)
    {
      definition := Put(definition, column, t);
    }

    /** `handleFilterFields`: the fields are rebuilt from the current
      definition and data. */
    method HandleFilterFields()
      requires Valid()
      modifies this
      ensures Valid()
      ensures filterFields == MakeFilterFields(definition, data)
      ensures data == old(data) && definition == old(definition) && columns == old(columns)
      ensures inputData == old(inputData)
    {
      filterFields := MakeFilterFields(definition, data);
    }
  }

  /** A type change touches one entry only: every other key keeps its type
      and its place, and the changed key keeps its place when it existed. */
  lemma TypeChangeTouchesOneKey(def: Definition, column: string, t: ColumnType)
    requires def.Valid() && WellNamed(t)
    ensures var r := Put(def, column, t);
            r.types[column] == t
            && (forall k :: k != column ==> (k in r.types <==> k in def.types))
            && (forall k :: k != column && k in def.types ==> r.types[k] == def.types[k])
            && (column in def.types ==> r.keys == def.keys)
            && (column in def.types && def.types[column] == t ==> r == def)
  {
    if column in def.types && def.types[column] == t {
      assert def.types[column := t] == def.types;
    }
  }
}
