/** The column types of a table, the column definition that maps column
    names to types, and the two validator factories derived from it: one
    for row values, one for the filter values that arrive as URL search
    parameters. */
module Schema {
  import opened Common
  import opened Text
  import opened JsValues

  /** Delimiters used in URL search parameters. */
  const ARRAY_DELIMITER: char := ','
  const SLIDER_DELIMITER: char := '-'
  const SPACE_DELIMITER: char := '_'
  const RANGE_DELIMITER: char := '-'

  /** The seven column types. A definition read back from storage is plain
      JSON, so it can also hold some other string: `Unsupported`. */
  datatype ColumnType =
    | String | Number | Boolean | Date | Url | Tags | Images
    | Unsupported(name: string)

  /** The type as the string the definition stores. */
  function TypeName(t: ColumnType): string
  {
    match t
    case String => "string"
    case Number => "number"
    case Boolean => "boolean"
    case Date => "date"
    case Url => "url"
    case Tags => "tags"
    case Images => "images"
    case Unsupported(name) => name
  }

  const KnownTypeNames: set<string> := {"string", "number", "boolean", "date", "url", "tags", "images"}

  /** A type string has exactly one encoding: one of the seven names is
      always its own constructor, never `Unsupported`. */
  predicate WellNamed(t: ColumnType)
  {
    t.Unsupported? ==> t.name !in KnownTypeNames
  }

  /** Reading a stored type string. */
  function ParseColumnType(name: string): (t: ColumnType)
    ensures WellNamed(t) && TypeName(t) == name
    ensures t.Unsupported? <==> name !in KnownTypeNames
  {
    if name == "string" then String
    else if name == "number" then Number
    else if name == "boolean" then Boolean
    else if name == "date" then Date
    else if name == "url" then Url
    else if name == "tags" then Tags
    else if name == "images" then Images
    else Unsupported(name)
  }

  /** Well-named types are equal exactly when their strings are: the
      encoding loses nothing and adds nothing. */
  lemma TypeNameInjective(a: ColumnType, b: ColumnType)
    requires WellNamed(a) && WellNamed(b)
    ensures TypeName(a) == TypeName(b) <==> a == b
    ensures ParseColumnType(TypeName(a)) == a
  {
  }

  /** `Record<string, ColumnType>`: the keys in insertion order and the type
      of each. */
  datatype Definition = Definition(keys: seq<string>, types: map<string, ColumnType>)
  {
    /** Every key is listed once and has a type, each type written in its
        one canonical form. */
    predicate Valid()
    {
      NoDuplicates(keys) && (forall k :: k in types ==> k in keys) && (forall k :: k in keys ==> k in types)
      && (forall k :: k in types ==> WellNamed(types[k]))
    }
  }

  const EmptyDefinition: Definition := Definition([], map[])

  /** `def[key] = t`: an existing key keeps its place, a new key goes last. */
  function Put(def: Definition, key: string, t: ColumnType): (r: Definition)
    requires def.Valid() && WellNamed(t)
    ensures r.Valid()
    ensures key in r.types && r.types[key] == t
    ensures forall k :: k != key ==> (k in r.types <==> k in def.types)
    ensures forall k :: k != key && k in def.types ==> r.types[k] == def.types[k]
    ensures r.keys == if key in def.types then def.keys else def.keys + [key]
  {
    if key in def.types then Definition(def.keys, def.types[key := t])
    else Definition(def.keys + [key], def.types[key := t])
  }

  // ---------------------------------------------------------------------
  // Row validators (getColumnSchema / createColumnSchema)

  /** The zod schema chosen for a column's row values. */
  datatype ColumnValidator =
    | StringSchema          // z.string()
    | OptionalNumberSchema  // z.number().optional()
    | BooleanSchema         // z.boolean()
    | DateSchema            // z.date()
    | UrlSchema             // z.string().url()
    | StringArraySchema     // z.string().array()

  /** `getColumnSchema`: the row validator for a type; other types throw. */
  function GetColumnSchema(t: ColumnType): (r: Result<ColumnValidator>)
    ensures r.Fail? <==> t.Unsupported?
    ensures r.Fail? ==> r.error == UnsupportedType(TypeName(t))
  {
    match t
    case String => Ok(StringSchema)
    case Number => Ok(OptionalNumberSchema)
    case Boolean => Ok(BooleanSchema)
    case Date => Ok(DateSchema)
    case Url => Ok(UrlSchema)
    case Tags => Ok(StringArraySchema)
    case Images => Ok(StringArraySchema)
    case Unsupported(_) => Fail(UnsupportedType(TypeName(t)))
  }

  /** Whether a row validator accepts a cell. `isUrl` is the URL parser
      zod's `.url()` calls, which is not part of this model. */
  predicate Accepts(v: ColumnValidator, cell: Value, isUrl: string -> bool)
  {
    match v
    case StringSchema => cell.Str?
    case OptionalNumberSchema => cell.Num? || cell.Undefined?
    case BooleanSchema => cell.Bool?
    case DateSchema => cell.DateObj?
    case UrlSchema => cell.Str? && isUrl(cell.s)
    case StringArraySchema => cell.Arr? && forall i :: 0 <= i < |cell.items| ==> cell.items[i].Str?
  }

  /** The first key (in key order) whose type is unsupported, if any. */
  function FirstUnsupported(def: Definition, from: nat): (r: Option<nat>)
    requires def.Valid() && from <= |def.keys|
    ensures r.Some? ==> from <= r.value < |def.keys| && def.types[def.keys[r.value]].Unsupported?
    ensures forall i :: from <= i < |def.keys| && (r.None? || i < r.value) ==> !def.types[def.keys[i]].Unsupported?
    decreases |def.keys| - from
  {
    if from == |def.keys| then None
    else if def.types[def.keys[from]].Unsupported? then Some(from)
    else FirstUnsupported(def, from + 1)
  }

  /** `createColumnSchema`: one row validator per key, in key order; the
      first unsupported type throws. */
  function CreateColumnSchema(def: Definition): (r: Result<seq<(string, ColumnValidator)>>)
    requires def.Valid()
    ensures r.Ok? <==> forall k :: k in def.types ==> !def.types[k].Unsupported?
    ensures r.Ok? ==> |r.value| == |def.keys|
                      && forall i :: 0 <= i < |def.keys| ==>
                           r.value[i].0 == def.keys[i] && Ok(r.value[i].1) == GetColumnSchema(def.types[def.keys[i]])
    ensures r.Fail? ==> exists i :: 0 <= i < |def.keys| && def.types[def.keys[i]].Unsupported?
                         && r.error == UnsupportedType(TypeName(def.types[def.keys[i]]))
  {
    match FirstUnsupported(def, 0)
    case Some(i) => Fail(UnsupportedType(TypeName(def.types[def.keys[i]])))
    case None =>
      Ok(seq(|def.keys|, i requires 0 <= i < |def.keys| =>
             (def.keys[i], GetColumnSchema(def.types[def.keys[i]]).value)))
  }

  // ---------------------------------------------------------------------
  // Filter validators (getFilterSchema / createFilterSchema)

  /** The zod schema chosen for a column's search parameter. */
  datatype FilterValidator =
    | OptionalStringFilter   // string, url: z.string().optional()
    | NumberOrRangeFilter    // number: coerced number, or "a-b" split into two numbers
    | BooleanListFilter      // boolean: "a,b" split, each token parsed as a boolean
    | DateOrRangeFilter      // date: coerced number as a date, or "a-b-..." split into dates
    | SplitStringsFilter     // tags, images: an array of strings, each split on ","

  /** `getFilterSchema`: the filter validator for a type; other types throw. */
  function GetFilterSchema(t: ColumnType): (r: Result<FilterValidator>)
    ensures r.Fail? <==> t.Unsupported?
    ensures r.Fail? ==> r.error == UnsupportedType(TypeName(t))
  {
    match t
    case String => Ok(OptionalStringFilter)
    case Number => Ok(NumberOrRangeFilter)
    case Boolean => Ok(BooleanListFilter)
    case Date => Ok(DateOrRangeFilter)
    case Url => Ok(OptionalStringFilter)
    case Tags => Ok(SplitStringsFilter)
    case Images => Ok(SplitStringsFilter)
    case Unsupported(_) => Fail(UnsupportedType(TypeName(t)))
  }

  /** `createFilterSchema`: one filter validator per key, in key order; the
      first unsupported type throws. */
  function CreateFilterSchema(def: Definition): (r: Result<seq<(string, FilterValidator)>>)
    requires def.Valid()
    ensures r.Ok? <==> forall k :: k in def.types ==> !def.types[k].Unsupported?
    ensures r.Ok? ==> |r.value| == |def.keys|
                      && forall i :: 0 <= i < |def.keys| ==>
                           r.value[i].0 == def.keys[i] && Ok(r.value[i].1) == GetFilterSchema(def.types[def.keys[i]])
    ensures r.Fail? ==> exists i :: 0 <= i < |def.keys| && def.types[def.keys[i]].Unsupported?
                         && r.error == UnsupportedType(TypeName(def.types[def.keys[i]]))
  {
    match FirstUnsupported(def, 0)
    case Some(i) => Fail(UnsupportedType(TypeName(def.types[def.keys[i]])))
    case None =>
      Ok(seq(|def.keys|, i requires 0 <= i < |def.keys| =>
             (def.keys[i], GetFilterSchema(def.types[def.keys[i]]).value)))
  }

  /** A search parameter as the page receives it: absent, one string, or a
      repeated parameter's list of strings. */
  datatype Param = Absent | One(s: string) | Many(items: seq<string>)

  /** The typed filter value a filter validator produces. */
  datatype FilterValue =
    | NoFilter
    | TextFilter(text: string)
    | NumberFilter(n: int)
    | NumberRangeFilter(lo: int, hi: int)
    | BooleanTokens(tokens: seq<Option<bool>>)
    | DateFilter(time: int)
    | DateListFilter(times: seq<int>)
    | StringLists(lists: seq<seq<string>>)

  /** `z.coerce.number()` applied to a parameter: `Number(String(p))`. */
  function CoerceNumber(p: Param): (r: Option<int>)
    requires !p.Absent?
    ensures p.Many? && |p.items| == 1 ==> r == StringToNumber(p.items[0])
    ensures p.Many? && |p.items| >= 2 ==> r.None?
  {
    match p
    case One(s) => StringToNumber(s)
    case Many(items) => JoinedIsNaN(items); StringToNumber(Join(items, ','))
  }

  /** Two or more values joined by commas are never a number. */
  lemma JoinedIsNaN(items: seq<string>)
    ensures |items| >= 2 ==> StringToNumber(Join(items, ',')) == None
  {
    if |items| >= 2 {
      var s := Join(items, ',');
      assert s == items[0] + [','] + Join(items[1..], ',');
      assert s[|items[0]|] == ',';
      ForeignCharIsNaN(s, |items[0]|);
    }
  }

  /** The largest time value a JavaScript Date can hold, in milliseconds. */
  const MaxTime: int := 8_640_000_000_000_000

  /** `z.coerce.date()` on a number: a Date unless it is out of range. */
  predicate IsValidTime(t: int)
  {
    -MaxTime <= t <= MaxTime
  }

  /** `Number` of every piece, when none is NaN. */
  function NumbersOf(parts: seq<string>): (r: Option<seq<int>>)
    ensures r.Some? <==> forall i :: 0 <= i < |parts| ==> StringToNumber(parts[i]).Some?
    ensures r.Some? ==> |r.value| == |parts|
                        && forall i :: 0 <= i < |parts| ==> StringToNumber(parts[i]) == Some(r.value[i])
  {
    if parts == [] then Some([])
    else
      match (StringToNumber(parts[0]), NumbersOf(parts[1..]))
      case (Some(n), Some(ns)) => Some([n] + ns)
      case _ => None
  }

  /** Two numeric pieces give the pair of their numbers. */
  lemma NumbersOfPair(a: string, b: string, x: int, y: int)
    requires StringToNumber(a) == Some(x) && StringToNumber(b) == Some(y)
    ensures NumbersOf([a, b]) == Some([x, y])
  {
    var r := NumbersOf([a, b]);
    assert [a, b][0] == a && [a, b][1] == b;
    assert r.Some?;
    assert StringToNumber(a) == Some(r.value[0]) && StringToNumber(b) == Some(r.value[1]);
    assert r.value == [x, y];
  }

  /** The number filter: a number, else a string that splits on '-' into
      exactly two numbers; absence is allowed. */
  function DecodeNumberFilter(p: Param): (r: Result<FilterValue>)
    ensures p.Absent? ==> r == Ok(NoFilter)
    ensures !p.Absent? && CoerceNumber(p).Some? ==> r == Ok(NumberFilter(CoerceNumber(p).value))
    ensures p.Many? && CoerceNumber(p).None? ==> r == Fail(ValidationError)
    ensures p.One? && CoerceNumber(p).None? ==>
              var parts := Split(p.s, SLIDER_DELIMITER);
              r.Ok? <==> |parts| == 2 && StringToNumber(parts[0]).Some? && StringToNumber(parts[1]).Some?
    ensures r.Ok? && r.value.NumberRangeFilter? ==>
              p.One? && |Split(p.s, SLIDER_DELIMITER)| == 2
              && StringToNumber(Split(p.s, SLIDER_DELIMITER)[0]) == Some(r.value.lo)
              && StringToNumber(Split(p.s, SLIDER_DELIMITER)[1]) == Some(r.value.hi)
  {
    if p.Absent? then Ok(NoFilter)
    else match CoerceNumber(p)
      case Some(n) => Ok(NumberFilter(n))
      case None =>
        if p.Many? then Fail(ValidationError) else NumberRange(p.s)
  }

  /** The range form of the number filter: two numbers joined by '-'. */
  function NumberRange(s: string): (r: Result<FilterValue>)
    ensures var parts := Split(s, SLIDER_DELIMITER);
            r.Ok? <==> |parts| == 2 && StringToNumber(parts[0]).Some? && StringToNumber(parts[1]).Some?
    ensures r.Ok? ==> var parts := Split(s, SLIDER_DELIMITER);
                      |parts| == 2 && r.value == NumberRangeFilter(StringToNumber(parts[0]).value, StringToNumber(parts[1]).value)
  {
    match NumbersOf(Split(s, SLIDER_DELIMITER))
    case Some(ns) => if |ns| == 2 then Ok(NumberRangeFilter(ns[0], ns[1])) else Fail(ValidationError)
    case None => Fail(ValidationError)
  }

  /** What `JSON.parse` makes of one lower-cased token. Whether a token that
      is neither `true` nor `false` is some other JSON text is decided by
      `isJson`, the JSON parser, which is not part of this model. */
  datatype TokenOutcome = BooleanToken(b: bool) | NotJson | OtherJson

  predicate IsJsonSpace(c: char)
  {
    c == ' ' || c == '\t' || c == '\n' || c == '\r'
  }

  function JsonTrim(s: string): (r: string)
    ensures |r| <= |s|
  {
    if s != [] && IsJsonSpace(s[0]) then JsonTrim(s[1..])
    else if s != [] && IsJsonSpace(s[|s| - 1]) then JsonTrim(s[..|s| - 1])
    else s
  }

  function ClassifyToken(token: string, isJson: string -> bool): (r: TokenOutcome)
    ensures r.BooleanToken? <==> JsonTrim(LowerCase(token)) in {"true", "false"}
    ensures r.BooleanToken? ==> (r.b <==> JsonTrim(LowerCase(token)) == "true")
  {
    var t := LowerCase(token);
    if JsonTrim(t) == "true" then BooleanToken(true)
    else if JsonTrim(t) == "false" then BooleanToken(false)
    else if isJson(t) then OtherJson
    else NotJson
  }

  /** `stringToBoolean` over every token: a boolean, `undefined` for text
      JSON cannot parse, and a validation error for any other JSON value. */
  function BooleansOf(tokens: seq<string>, isJson: string -> bool): (r: Option<seq<Option<bool>>>)
    ensures r.Some? <==> forall i :: 0 <= i < |tokens| ==> !ClassifyToken(tokens[i], isJson).OtherJson?
    ensures r.Some? ==> |r.value| == |tokens|
                        && forall i :: 0 <= i < |tokens| ==>
                             (r.value[i].Some? <==> ClassifyToken(tokens[i], isJson).BooleanToken?)
                             && (r.value[i].Some? ==> r.value[i].value == ClassifyToken(tokens[i], isJson).b)
  {
    var outcomes := seq(|tokens|, i requires 0 <= i < |tokens| => ClassifyToken(tokens[i], isJson));
    if exists i :: 0 <= i < |outcomes| && outcomes[i].OtherJson? then None
    else
      assert forall i :: 0 <= i < |tokens| ==> outcomes[i] == ClassifyToken(tokens[i], isJson) && !outcomes[i].OtherJson?;
      Some(seq(|outcomes|, i requires 0 <= i < |outcomes| =>
                  if outcomes[i].BooleanToken? then Some(outcomes[i].b) else None))
  }

  /** No token is a JSON value other than a boolean. */
  predicate NoOtherJson(tokens: seq<string>, isJson: string -> bool)
  {
    forall i :: 0 <= i < |tokens| ==> !ClassifyToken(tokens[i], isJson).OtherJson?
  }

  /** The boolean filter: a string split on ',' with each token parsed.
      A token `JSON.parse` rejects becomes `undefined` (`None`); any other
      JSON value than a boolean fails the whole filter. */
  function DecodeBooleanFilter(p: Param, isJson: string -> bool): (r: Result<FilterValue>)
    ensures p.Absent? ==> r == Ok(NoFilter)
    ensures p.Many? ==> r == Fail(ValidationError)
    ensures p.One? ==> var parts := Split(p.s, ARRAY_DELIMITER);
              (r.Ok? <==> NoOtherJson(parts, isJson))
              && (r.Fail? ==> r.error == ValidationError)
    ensures p.One? && r.Ok? ==> var parts := Split(p.s, ARRAY_DELIMITER);
              r.value.BooleanTokens? && |r.value.tokens| == |parts|
              && forall i :: 0 <= i < |parts| ==>
                   (r.value.tokens[i].Some? <==> ClassifyToken(parts[i], isJson).BooleanToken?)
                   && (r.value.tokens[i].Some? ==> r.value.tokens[i].value == ClassifyToken(parts[i], isJson).b)
  {
    match p
    case Absent => Ok(NoFilter)
    case Many(_) => Fail(ValidationError)
    case One(s) =>
      var parts := Split(s, ARRAY_DELIMITER);
      var bs := BooleansOf(parts, isJson);
      if bs.Some? then Ok(BooleanTokens(bs.value)) else Fail(ValidationError)
  }

  /** The word `String(b)` gives for a boolean. */
  function BooleanWord(b: bool): string
  {
    if b then "true" else "false"
  }

  function BooleanWords(bs: seq<bool>): (ws: seq<string>)
    ensures |ws| == |bs| && forall i :: 0 <= i < |bs| ==> ws[i] == BooleanWord(bs[i])
  {
    seq(|bs|, i requires 0 <= i < |bs| => BooleanWord(bs[i]))
  }

  /** Booleans joined by ',' decode back to themselves, one token each. */
  lemma BooleanFilterRoundTrip(bs: seq<bool>, isJson: string -> bool)
    requires bs != []
    ensures var r := DecodeBooleanFilter(One(Join(BooleanWords(bs), ARRAY_DELIMITER)), isJson);
            r.Ok? && r.value.BooleanTokens? && |r.value.tokens| == |bs|
            && forall i :: 0 <= i < |bs| ==> r.value.tokens[i] == Some(bs[i])
  {
    var ws := BooleanWords(bs);
    forall i | 0 <= i < |ws|
      ensures ARRAY_DELIMITER !in ws[i]
      ensures ClassifyToken(ws[i], isJson) == BooleanToken(bs[i])
    {
      assert LowerCase(ws[i]) == ws[i];
      assert JsonTrim(ws[i]) == ws[i];
    }
    SplitJoin(ws, ARRAY_DELIMITER);
  }

  /** A token that is no JSON text at all is kept as `undefined` rather
      than failing the filter. */
  lemma UnparseableTokenIsUndefined(t: string, isJson: string -> bool)
    requires ARRAY_DELIMITER !in t && !isJson(LowerCase(t))
    requires JsonTrim(LowerCase(t)) != "true" && JsonTrim(LowerCase(t)) != "false"
    ensures DecodeBooleanFilter(One(t), isJson) == Ok(BooleanTokens([None]))
  {
    SplitWithout(t, ARRAY_DELIMITER);
    assert ClassifyToken(t, isJson) == NotJson;
    var bs := BooleansOf([t], isJson);
    assert [t][0] == t;
    assert bs.Some? && bs.value == [None];
  }

  /** Every piece is a number that is a valid time. */
  predicate AllValidTimes(parts: seq<string>)
  {
    forall i :: 0 <= i < |parts| ==> StringToNumber(parts[i]).Some? && IsValidTime(StringToNumber(parts[i]).value)
  }

  /** The date filter: a number that is a valid time, else a string split
      on '-' whose every piece is a valid time (any number of pieces). */
  function DecodeDateFilter(p: Param): (r: Result<FilterValue>)
    ensures p.Absent? ==> r == Ok(NoFilter)
    ensures !p.Absent? && CoerceNumber(p).Some? && IsValidTime(CoerceNumber(p).value) ==>
              r == Ok(DateFilter(CoerceNumber(p).value))
    ensures p.Many? && !(CoerceNumber(p).Some? && IsValidTime(CoerceNumber(p).value)) ==>
              r == Fail(ValidationError)
    ensures p.One? && !(CoerceNumber(p).Some? && IsValidTime(CoerceNumber(p).value)) ==>
              var parts := Split(p.s, RANGE_DELIMITER);
              (r.Ok? <==> AllValidTimes(parts))
              && (r.Ok? ==> r.value.DateListFilter? && |r.value.times| == |parts|
                            && forall i :: 0 <= i < |parts| ==> StringToNumber(parts[i]) == Some(r.value.times[i]))
              && (r.Fail? ==> r.error == ValidationError)
    ensures r.Ok? && r.value.DateListFilter? ==>
              p.One? && |r.value.times| == |Split(p.s, RANGE_DELIMITER)|
              && forall i :: 0 <= i < |r.value.times| ==> IsValidTime(r.value.times[i])
  {
    if p.Absent? then Ok(NoFilter)
    else if CoerceNumber(p).Some? && IsValidTime(CoerceNumber(p).value) then Ok(DateFilter(CoerceNumber(p).value))
    else if p.Many? then Fail(ValidationError)
    else
      var parts := Split(p.s, RANGE_DELIMITER);
      var ts := NumbersOf(parts);
      if ts.None? then
        NotAllNumbers(parts);
        Fail(ValidationError)
      else if forall i :: 0 <= i < |ts.value| ==> IsValidTime(ts.value[i]) then Ok(DateListFilter(ts.value))
      else Fail(ValidationError)
  }

  /** When some piece is not a number, not every piece is a valid time. */
  lemma NotAllNumbers(parts: seq<string>)
    requires NumbersOf(parts).None?
    ensures !AllValidTimes(parts)
  {
    var i :| 0 <= i < |parts| && StringToNumber(parts[i]).None?;
  }

  /** A valid time written in decimal decodes back to that date. */
  lemma DateRoundTrip(t: int)
    requires IsValidTime(t)
    ensures DecodeDateFilter(One(Decimal(t))) == Ok(DateFilter(t))
  {
    DecimalRoundTrip(t);
  }

  /** Two non-negative valid times joined by '-' decode back to the list
      of the two. */
  lemma DateRangeRoundTrip(lo: int, hi: int)
    requires 0 <= lo <= MaxTime && 0 <= hi <= MaxTime
    ensures DecodeDateFilter(One(Decimal(lo) + [RANGE_DELIMITER] + Decimal(hi))) == Ok(DateListFilter([lo, hi]))
  {
    DecimalPair(lo, hi);
    DecimalRoundTrip(lo);
    DecimalRoundTrip(hi);
    NumbersOfPair(Decimal(lo), Decimal(hi), lo, hi);
  }

  /** The tags/images filter, `z.string().transform(split).array()`: the
      parameter must be a list of strings, and each is split on ','. */
  function DecodeSplitStringsFilter(p: Param): (r: Result<FilterValue>)
    ensures p.Absent? ==> r == Ok(NoFilter)
    ensures p.One? ==> r == Fail(ValidationError)
    ensures p.Many? ==> r.Ok? && r.value.StringLists? && |r.value.lists| == |p.items|
                        && forall i :: 0 <= i < |p.items| ==>
                             Join(r.value.lists[i], ARRAY_DELIMITER) == p.items[i] && |r.value.lists[i]| >= 1
                             && forall j :: 0 <= j < |r.value.lists[i]| ==> ARRAY_DELIMITER !in r.value.lists[i][j]
  {
    match p
    case Absent => Ok(NoFilter)
    case One(_) => Fail(ValidationError)
    case Many(items) =>
      var lists := seq(|items|, i requires 0 <= i < |items| => Split(items[i], ARRAY_DELIMITER));
      assert forall i :: 0 <= i < |items| ==>
               Join(lists[i], ARRAY_DELIMITER) == items[i]
               && (forall j :: 0 <= j < |lists[i]| ==> ARRAY_DELIMITER !in lists[i][j]) by {
        forall i | 0 <= i < |items|
          ensures Join(lists[i], ARRAY_DELIMITER) == items[i]
          ensures forall j :: 0 <= j < |lists[i]| ==> ARRAY_DELIMITER !in lists[i][j]
        {
          JoinSplit(items[i], ARRAY_DELIMITER);
          SplitParts(items[i], ARRAY_DELIMITER);
        }
      }
      Ok(StringLists(lists))
  }

  /** Lists of comma-free strings, each joined by ',', decode back to the
      lists. */
  lemma SplitStringsRoundTrip(lists: seq<seq<string>>)
    requires forall i :: 0 <= i < |lists| ==> |lists[i]| >= 1
    requires forall i, j :: 0 <= i < |lists| && 0 <= j < |lists[i]| ==> ARRAY_DELIMITER !in lists[i][j]
    ensures var items := seq(|lists|, i requires 0 <= i < |lists| => Join(lists[i], ARRAY_DELIMITER));
            DecodeSplitStringsFilter(Many(items)) == Ok(StringLists(lists))
  {
    var items := seq(|lists|, i requires 0 <= i < |lists| => Join(lists[i], ARRAY_DELIMITER));
    var r := DecodeSplitStringsFilter(Many(items));
    assert r.Ok? && |r.value.lists| == |lists|;
    forall i | 0 <= i < |lists|
      ensures r.value.lists[i] == lists[i]
    {
      SplitJoin(lists[i], ARRAY_DELIMITER);
    }
    assert r.value.lists == lists;
  }

  /** The string and url filter: an optional string. */
  function DecodeOptionalString(p: Param): (r: Result<FilterValue>)
    ensures p.Absent? ==> r == Ok(NoFilter)
    ensures p.One? ==> r == Ok(TextFilter(p.s))
    ensures p.Many? ==> r.Fail?
  {
    match p
    case Absent => Ok(NoFilter)
    case One(s) => Ok(TextFilter(s))
    case Many(_) => Fail(ValidationError)
  }

  /** Parse one search parameter with a filter validator. */
  function DecodeFilter(v: FilterValidator, p: Param, isJson: string -> bool): Result<FilterValue>
  {
    match v
    case OptionalStringFilter => DecodeOptionalString(p)
    case NumberOrRangeFilter => DecodeNumberFilter(p)
    case BooleanListFilter => DecodeBooleanFilter(p, isJson)
    case DateOrRangeFilter => DecodeDateFilter(p)
    case SplitStringsFilter => DecodeSplitStringsFilter(p)
  }

  /** Every filter validator accepts an absent parameter as "no filter". */
  lemma AbsentAlwaysAccepted(v: FilterValidator, isJson: string -> bool)
    ensures DecodeFilter(v, Absent, isJson) == Ok(NoFilter)
  {
  }
}
