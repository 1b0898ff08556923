/** The table's column objects: one per definition entry, with its header
    title, its filter function and the way its cells render. */
module Columns {
  import opened Common
  import opened Text
  import opened JsValues
  import opened Schema
  import opened Constants

  /** The `filterFn` of a column: the library's automatic choice, or the
      custom boolean filter. */
  datatype FilterFn = Auto | BooleanFilter

  /** The `cell` renderer a column gets from its type. */
  datatype CellRenderer = SpanCell | NumberCell | BooleanCell | DateCell | LinkCell | TagsCell | ImageCell

  /** A column object: `id`, `accessorKey`, the header title, the filter
      function and the cell renderer (absent for the base column). */
  datatype Column = Column(id: string, accessorKey: string, title: string, filterFn: FilterFn,
                           cell: Option<CellRenderer>)

  /** The column built for one `[key, type]` entry. */
  function MakeColumn(key: string, t: ColumnType): (c: Column)
    ensures c.id == key && c.accessorKey == key
    ensures c.title == CapitalizeFirstLetter(key)
    ensures c.filterFn == (if t == Boolean then BooleanFilter else Auto)
    ensures c.cell.None? <==> t.Unsupported?
  {
    var base := Column(key, key, CapitalizeFirstLetter(key), Auto, None);
    match t
    case String => base.(cell := Some(SpanCell))
    case Number => base.(cell := Some(NumberCell))
    case Boolean => base.(filterFn := BooleanFilter, cell := Some(BooleanCell))
    case Date => base.(cell := Some(DateCell))
    case Url => base.(cell := Some(LinkCell))
    case Tags => base.(cell := Some(TagsCell))
    case Images => base.(cell := Some(ImageCell))
    case Unsupported(_) => base
  }

  /** `makeColumns`: one column per definition entry, in entry order. */
  function MakeColumns(def: Definition): (cols: seq<Column>)
    requires def.Valid()
    ensures |cols| == |def.keys|
    ensures forall i :: 0 <= i < |cols| ==> cols[i] == MakeColumn(def.keys[i], def.types[def.keys[i]])
  {
    seq(|def.keys|, i requires 0 <= i < |def.keys| => MakeColumn(def.keys[i], def.types[def.keys[i]]))
  }

  /** Column ids are the definition's keys, so no two columns share an id. */
  lemma ColumnIdsAreKeys(def: Definition)
    requires def.Valid()
    ensures var cols := MakeColumns(def);
            (forall i :: 0 <= i < |cols| ==> cols[i].id == cols[i].accessorKey == def.keys[i])
            && forall i, j :: 0 <= i < j < |cols| ==> cols[i].id != cols[j].id
  {
  }

  /** The boolean column's filter: membership when the filter value is an
      array, strict equality otherwise. */
  predicate BooleanFilterFn(rowValue: Value, filterValue: Value): (r: bool)
    ensures filterValue.Bool? ==> (r <==> rowValue == filterValue)
    ensures filterValue.Arr? ==>
              (r <==> exists i :: 0 <= i < |filterValue.items| && Same(filterValue.items[i], rowValue))
  {
    if filterValue.Arr? then Includes(filterValue.items, rowValue) else Same(filterValue, rowValue)
  }

  /** A one-element array filter behaves as its element would, and the
      `[true, false]` filter the checkbox sends with both boxes ticked
      accepts every boolean cell and nothing else. */
  lemma BooleanFilterSingletonAndBoth(rowValue: Value, x: Value, ref: nat)
    ensures BooleanFilterFn(rowValue, Arr(ref, [x])) == BooleanFilterFn(rowValue, x) || x.Arr?
    ensures BooleanFilterFn(rowValue, Arr(ref, [Bool(true), Bool(false)])) <==> rowValue.Bool?
  {
    if rowValue.Bool? {
      if rowValue.b {
        assert Same([Bool(true), Bool(false)][0], rowValue);
      } else {
        assert Same([Bool(true), Bool(false)][1], rowValue);
      }
    }
    if !x.Arr? && Same(x, rowValue) {
      assert Same([x][0], rowValue);
    }
  }

  /** What a cell shows. Date formatting is not modelled: a date cell is
      kept as the value it formats; whether `new Date(value)` is a valid
      date is the renderer's `validDate` parameter. */
  datatype Rendered =
    | Span(text: Value)
    | Dash                      // the muted minus placeholder
    | CheckMark
    | FormattedDate(source: Value)
    | Link(url: Value)
    | Badges(badges: seq<Badge>)
    | Image(src: Value)

  /** A tag badge: its text and its three colours. */
  datatype Badge = Badge(text: string, color: string, background: string, border: string)

  /** `Array.isArray(value) ? value : [value]`. */
  function TagsOf(v: Value): (tags: seq<Value>)
    ensures v.Arr? ==> tags == v.items
    ensures !v.Arr? ==> tags == [v]
  {
    if v.Arr? then v.items else [v]
  }

  /** The alphas of `Math.round(opacity * 255)` for the opacities 1, 0.1
      and 0.2. */
  const TextAlpha: nat := 255
  const BackgroundAlpha: nat := 26
  const BorderAlpha: nat := 51

  /** The badges of a tag cell. A tag that is not a string makes
      `generateColorFromName` call `split` on it, which throws. */
  function MakeBadges(tags: seq<Value>): (r: Result<seq<Badge>>)
    ensures r.Ok? <==> forall i :: 0 <= i < |tags| ==> tags[i].Str?
    ensures r.Ok? ==> |r.value| == |tags|
                      && forall i :: 0 <= i < |tags| ==> r.value[i].text == tags[i].s
  {
    if tags == [] then Ok([])
    else
      var init := MakeBadges(tags[..|tags| - 1]);
      var tag := tags[|tags| - 1];
      if init.Fail? then init
      else if !tag.Str? then Fail(TypeError("name.split is not a function"))
      else
        Ok(init.value + [Badge(tag.s, ColorFromName(tag.s, TextAlpha),
                               ColorFromName(tag.s, BackgroundAlpha), ColorFromName(tag.s, BorderAlpha))])
  }

  /** What a renderer makes of a cell value. A tag cell throws on a tag
      that is not a string; a date cell throws the `RangeError` of date-fns
      `format` when `new Date(value)` is an Invalid Date (`validDate`). */
  function RenderCell(r: CellRenderer, v: Value, validDate: Value -> bool): (out: Result<Rendered>)
    ensures r == TagsCell ==> (out.Ok? <==> forall i :: 0 <= i < |TagsOf(v)| ==> TagsOf(v)[i].Str?)
    ensures r == DateCell ==> (out.Ok? <==> validDate(v))
    ensures r == DateCell && out.Fail? ==> out.error.RangeError?
    ensures r != TagsCell && r != DateCell ==> out.Ok?
  {
    match r
    case SpanCell => Ok(Span(v))
    case NumberCell => Ok(if Truthy(v) then Span(v) else Dash)
    case BooleanCell => Ok(if Truthy(v) then CheckMark else Dash)
    case DateCell => if validDate(v) then Ok(FormattedDate(v)) else Fail(RangeError("Invalid time value"))
    case LinkCell => Ok(Link(v))
    case TagsCell =>
      var badges := MakeBadges(TagsOf(v));
      if badges.Ok? then Ok(Badges(badges.value)) else Fail(badges.error)
    case ImageCell => Ok(Image(v))
  }

  /** Number and boolean cells show the placeholder for every falsy value,
      0 and `false` included, and show the value (or the check mark)
      otherwise. */
  lemma FalsyCellsShowPlaceholder(v: Value, validDate: Value -> bool)
    ensures RenderCell(NumberCell, v, validDate) == Ok(if Truthy(v) then Span(v) else Dash)
    ensures RenderCell(BooleanCell, v, validDate) == Ok(if Truthy(v) then CheckMark else Dash)
    ensures RenderCell(NumberCell, Num(0), validDate) == Ok(Dash) && RenderCell(BooleanCell, Bool(false), validDate) == Ok(Dash)
  {
  }

  /** Every badge of a tag uses one colour in three opacities: the `#RRGGBB`
      part is shared, and the alphas are `FF`, `1A` and `33`. */
  lemma BadgeColoursShareChannels(v: Value, validDate: Value -> bool)
    requires RenderCell(TagsCell, v, validDate).Ok?
    ensures var bs := RenderCell(TagsCell, v, validDate).value.badges;
            forall i :: 0 <= i < |bs| ==>
              |bs[i].color| >= 7 && |bs[i].background| >= 7 && |bs[i].border| >= 7
              && bs[i].color[..7] == bs[i].background[..7] == bs[i].border[..7]
              && bs[i].color[7..] == "FF" && bs[i].background[7..] == "1A" && bs[i].border[7..] == "33"
  {
    var bs := RenderCell(TagsCell, v, validDate).value.badges;
    assert Hex(255) == "FF" && Hex(26) == "1A" && Hex(51) == "33";
    forall i | 0 <= i < |bs|
      ensures |bs[i].color| >= 7 && |bs[i].background| >= 7 && |bs[i].border| >= 7
      ensures bs[i].color[..7] == bs[i].background[..7] == bs[i].border[..7]
      ensures bs[i].color[7..] == "FF" && bs[i].background[7..] == "1A" && bs[i].border[7..] == "33"
    {
      BadgeColours(TagsOf(v), i);
    }
  }

  lemma {:induction false} BadgeColours(tags: seq<Value>, i: nat)
    requires MakeBadges(tags).Ok? && i < |tags|
    ensures var b := MakeBadges(tags).value[i];
            b.color == ColorFromName(tags[i].s, TextAlpha)
            && b.background == ColorFromName(tags[i].s, BackgroundAlpha)
            && b.border == ColorFromName(tags[i].s, BorderAlpha)
            && |b.color| >= 7 && |b.background| >= 7 && |b.border| >= 7
            && b.color[..7] == b.background[..7] == b.border[..7]
            && b.color[7..] == Hex(TextAlpha) && b.background[7..] == Hex(BackgroundAlpha)
            && b.border[7..] == Hex(BorderAlpha)
  {
    if i < |tags| - 1 {
      BadgeColours(tags[..|tags| - 1], i);
    } else {
      var s := tags[i].s;
      OpacityKeepsChannels(s, TextAlpha, BackgroundAlpha);
      OpacityKeepsChannels(s, TextAlpha, BorderAlpha);
      ColorFormat(s, TextAlpha);
      ColorFormat(s, BackgroundAlpha);
      ColorFormat(s, BorderAlpha);
    }
  }
}
