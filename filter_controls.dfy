/** The filter panel: the order of its fields, the reset of every active
    filter, the fields opened by default and the widget each field gets. */
module FilterControls {
  import opened Common
  import opened JsValues
  import opened Schema
  import opened Constants
  import opened Sorting

  // ---------------------------------------------------------------------
  // Field order

  /** `columnDefinition[key]?.position || 0`. A definition entry is a type
      name, a string, and a string has no `position` property; a missing
      entry short-circuits to `undefined`. `undefined || 0` is 0 either way. */
  function Position(def: Definition, key: string): int
  {
    0
  }

  /** The comparator key of the field sort. */
  function PositionKey(def: Definition): FilterField -> int
  {
    (f: FilterField) => Position(def, f.value)
  }

  /** Every field has position 0, so the fields are already in order and the
      stable sort keeps them exactly where they are. */
  lemma FieldOrderUnchanged(def: Definition, fields: seq<FilterField>)
    ensures SortedBy(fields, PositionKey(def))
    ensures InsertionSort(fields, PositionKey(def)) == fields
  {
    InsertionSortOfSorted(fields, PositionKey(def));
  }

  /** `filterFields?.sort(byPosition) || []`: sorts the caller's array in
      place; absent fields give an empty list. */
  method OrderFields(def: Definition, fields: Option<array<FilterField>>) returns (ordered: seq<FilterField>)
    modifies if fields.Some? then {fields.value} else {}
    ensures fields.None? ==> ordered == []
    ensures fields.Some? ==> ordered == fields.value[..]
                             && ordered == InsertionSort(old(fields.value[..]), PositionKey(def))
                             && ordered == old(fields.value[..])
  {
    if fields.None? {
      return [];
    }
    var a := fields.value;
    FieldOrderUnchanged(def, a[..]);
    SortBy(a, PositionKey(def));
    ordered := a[..];
  }

  // ---------------------------------------------------------------------
  // Reset

  /** One entry of the table's `columnFilters` state. */
  datatype ColumnFilter = ColumnFilter(id: string, value: Value)

  function Ids(filters: seq<ColumnFilter>): (ids: seq<string>)
    ensures |ids| == |filters| && forall i :: 0 <= i < |filters| ==> ids[i] == filters[i].id
  {
    seq(|filters|, i requires 0 <= i < |filters| => filters[i].id)
  }

  /** The reset button's `reduce`: a record that maps every active filter id
      to `null`, its keys in first-insertion order. */
  method ResetValues(filters: seq<ColumnFilter>) returns (keys: seq<string>, reset: map<string, Value>)
    ensures keys == Dedup(Ids(filters))
    ensures NoDuplicates(keys)
    ensures forall k :: k in reset <==> k in Ids(filters)
    ensures forall k :: k in keys <==> k in reset
    ensures forall k :: k in reset ==> reset[k] == Null
  {
    keys, reset := [], map[];
    var i := 0;
    while i < |filters|
      invariant 0 <= i <= |filters|
      invariant keys == Dedup(Ids(filters)[..i])
      invariant forall k :: k in keys <==> k in reset
      invariant forall k :: k in reset ==> reset[k] == Null
    {
      var id := filters[i].id;
      ResetStep(filters, i, keys);
      keys := if id in reset then keys else keys + [id];
      reset := reset[id := Null];
      i := i + 1;
    }
    assert Ids(filters)[..i] == Ids(filters);
    DedupProperties(Ids(filters));
  }

  lemma ResetStep(filters: seq<ColumnFilter>, i: nat, keys: seq<string>)
    requires i < |filters| && keys == Dedup(Ids(filters)[..i])
    ensures Dedup(Ids(filters)[..i + 1]) ==
              if filters[i].id in keys then keys else keys + [filters[i].id]
  {
    var ids := Ids(filters);
    assert ids[..i + 1] == ids[..i] + [filters[i].id];
    DedupSnoc(ids[..i], filters[i].id);
    DedupProperties(ids[..i]);
  }

  // ---------------------------------------------------------------------
  // Fields open by default

  /** The accordion's `defaultValue`: the values of the fields with a
      truthy `defaultOpen`, in field order. */
  function DefaultOpen(fields: seq<FilterField>): (vs: seq<string>)
    ensures |vs| <= |fields|
  {
    if fields == [] then []
    else
      var f := fields[|fields| - 1];
      DefaultOpen(fields[..|fields| - 1]) + (if f.defaultOpen then [f.value] else [])
  }

  /** A value is opened by default exactly when some field with that value
      is flagged. */
  lemma {:induction false} DefaultOpenMembers(fields: seq<FilterField>, v: string)
    ensures v in DefaultOpen(fields) <==>
              exists i :: 0 <= i < |fields| && fields[i].defaultOpen && fields[i].value == v
  {
    if fields != [] {
      var init := fields[..|fields| - 1];
      DefaultOpenMembers(init, v);
      if exists i :: 0 <= i < |init| && init[i].defaultOpen && init[i].value == v {
        var i :| 0 <= i < |init| && init[i].defaultOpen && init[i].value == v;
        assert fields[i] == init[i];
      }
      if exists i :: 0 <= i < |fields| && fields[i].defaultOpen && fields[i].value == v {
        var i :| 0 <= i < |fields| && fields[i].defaultOpen && fields[i].value == v;
        if i < |init| {
          assert init[i] == fields[i];
        }
      }
    }
  }

  /** The keys of the date columns, in key order. */
  function DateKeys(keys: seq<string>, types: map<string, ColumnType>): (ks: seq<string>)
    requires forall k :: k in keys ==> k in types
  {
    if keys == [] then []
    else
      var k := keys[|keys| - 1];
      DateKeys(keys[..|keys| - 1], types) + (if types[k] == Date then [k] else [])
  }

  /** Of the generated fields, exactly the date columns open by default, in
      the definition's key order. */
  lemma DefaultOpenAreDateColumns(def: Definition, data: seq<Row>)
    requires def.Valid()
    ensures DefaultOpen(MakeFilterFields(def, data)) == DateKeys(def.keys, def.types)
  {
    var fields := MakeFilterFields(def, data);
    forall i | 0 <= i < |fields|
      ensures fields[i].value == def.keys[i] && (fields[i].defaultOpen <==> def.types[def.keys[i]] == Date)
    {
      var k := def.keys[i];
      assert fields[i] == MakeFilterField(k, def.types[k], data);
      DefaultOpenIffDate(k, def.types[k], data);
    }
    DefaultOpenMatchesDateKeys(fields, def.keys, def.types);
  }

  /** Fields that stand for the keys one by one, each flagged exactly when
      its key is a date, open exactly the date keys. */
  lemma {:induction false} DefaultOpenMatchesDateKeys(fields: seq<FilterField>, keys: seq<string>,
                                                      types: map<string, ColumnType>)
    requires |fields| == |keys| && forall k :: k in keys ==> k in types
    requires forall i :: 0 <= i < |fields| ==>
               fields[i].value == keys[i] && (fields[i].defaultOpen <==> types[keys[i]] == Date)
    ensures DefaultOpen(fields) == DateKeys(keys, types)
  {
    if fields != [] {
      var n := |fields| - 1;
      assert forall k :: k in keys[..n] ==> k in keys;
      DefaultOpenMatchesDateKeys(fields[..n], keys[..n], types);
    }
  }

  /** A generated field opens by default exactly when its column is a date. */
  lemma DefaultOpenIffDate(key: string, t: ColumnType, data: seq<Row>)
    ensures MakeFilterField(key, t, data).defaultOpen <==> t == Date
  {
  }

  // ---------------------------------------------------------------------
  // Widget dispatch

  /** The filter components the panel can show. */
  datatype Control = CheckboxControl | SliderControl | InputControl | TimerangeControl

  /** The `switch (field.type)`: `"none"` renders `null`, a kind the switch
      does not list (`undefined`) falls out of it; both show nothing. */
  function Widget(kind: Option<FilterKind>): (c: Option<Control>)
    ensures c.None? <==> kind.None? || kind == Some(NoWidget)
    ensures c == Some(SliderControl) <==> kind == Some(Slider)
    ensures c == Some(CheckboxControl) <==> kind == Some(Checkbox)
    ensures c == Some(InputControl) <==> kind == Some(Input)
    ensures c == Some(TimerangeControl) <==> kind == Some(Timerange)
  {
    match kind
    case None => None
    case Some(k) =>
      match k
      case Checkbox => Some(CheckboxControl)
      case Slider => Some(SliderControl)
      case Input => Some(InputControl)
      case NoWidget => None
      case Timerange => Some(TimerangeControl)
  }

  /** The control a column's filter ends up with, by column type: a slider
      for numbers, check boxes for booleans and tags, a time range for
      dates, a text input for strings, links and images, nothing for a type
      outside the map. */
  lemma ControlOfColumnType(t: ColumnType)
    requires WellNamed(t)
    ensures var c := Widget(FilterTypeMap(t));
            (c == Some(SliderControl) <==> t == Number)
            && (c == Some(CheckboxControl) <==> t == Boolean || t == Tags)
            && (c == Some(TimerangeControl) <==> t == Date)
            && (c == Some(InputControl) <==> t == String || t == Url || t == Images)
            && (c.None? <==> t.Unsupported?)
  {
  }
}
