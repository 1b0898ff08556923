/** Column-type inference for an uploaded table: classify one sample value,
    decide from a whole column whether it is a tag set, and build the
    column definition for every column. */
module InferTableSchema {
  import opened Common
  import opened Text
  import opened JsValues
  import opened Schema

  // ---------------------------------------------------------------------
  // The two regular expressions

  /** The characters `.` does not match in a JavaScript regular expression. */
  predicate IsLineTerminator(c: char)
  {
    c == '\n' || c == '\r' || c == '\U{2028}' || c == '\U{2029}'
  }

  /** Equality under the `i` flag against an ASCII literal: non-ASCII
      characters never fold onto ASCII ones there. */
  predicate EqualsIgnoringCase(s: string, literal: string)
  {
    |s| == |literal| && forall i :: 0 <= i < |s| ==> AsciiLower(s[i]) == AsciiLower(literal[i])
  }

  const Schemes: set<string> := {"http://", "https://"}
  const ImageExtensions: set<string> := {"jpg", "jpeg", "png", "gif"}

  /** The image pattern matched with a given scheme and extension. */
  predicate ImageMatch(s: string, scheme: string, ext: string)
  {
    |s| >= |scheme| + 2 + |ext|
    && EqualsIgnoringCase(s[..|scheme|], scheme)
    && s[|s| - |ext| - 1] == '.'
    && EqualsIgnoringCase(s[|s| - |ext|..], ext)
    && forall i :: |scheme| <= i < |s| - |ext| - 1 ==> !IsLineTerminator(s[i])
  }

  /** `/^https?:\/\/.+\.(jpg|jpeg|png|gif)$/i`: a scheme, at least one
      character other than a line terminator, a dot, and an image extension
      at the very end, letters in any case. */
  predicate MatchesImagePattern(s: string)
  {
    exists scheme, ext :: scheme in Schemes && ext in ImageExtensions && ImageMatch(s, scheme, ext)
  }

  /** `/^https?:\/\/.+/`: a lower-case scheme followed by at least one
      character other than a line terminator. */
  predicate MatchesUrlPattern(s: string)
  {
    exists scheme :: scheme in Schemes && UrlMatch(s, scheme)
  }

  predicate UrlMatch(s: string, scheme: string)
  {
    |s| > |scheme| && s[..|scheme|] == scheme && !IsLineTerminator(s[|scheme|])
  }

  /** Under case folding, a lower-case scheme is matched by exactly the
      strings that agree with it once lowered. */
  lemma {:induction false} FoldedScheme(prefix: string, scheme: string)
    requires scheme in Schemes
    requires EqualsIgnoringCase(prefix, scheme)
    requires prefix[..4] == "http" && (prefix[4] == 's' || prefix[4] == ':')
    ensures prefix == scheme
  {
    forall i | 0 <= i < |scheme|
      ensures prefix[i] == scheme[i]
    {
      assert AsciiLower(prefix[i]) == AsciiLower(scheme[i]);
      if i >= 4 {
        assert AsciiLower(prefix[4]) == AsciiLower(scheme[4]);
      }
    }
  }

  /** An image link whose scheme is written in lower case is also a URL, so
      testing for images first is what makes them images. */
  lemma ImageLinkIsUrl(s: string)
    requires MatchesImagePattern(s)
    requires s[..4] == "http"
    requires s[4] == 's' || s[4] == ':'
    ensures MatchesUrlPattern(s)
  {
    var scheme, ext :| scheme in Schemes && ext in ImageExtensions && ImageMatch(s, scheme, ext);
    assert s[..|scheme|][..4] == s[..4];
    FoldedScheme(s[..|scheme|], scheme);
    assert UrlMatch(s, scheme);
  }

  /** The link test is case-sensitive: a string starting "HTTP" fails it,
      so an image link with an upper-case scheme is recognised only by the
      case-insensitive image test. */
  lemma UpperCaseSchemeIsNotUrl(s: string)
    requires |s| >= 4 && s[..4] == "HTTP"
    ensures !MatchesUrlPattern(s)
  {
    assert s[0] == s[..4][0] == 'H';
    forall scheme | scheme in Schemes
      ensures !UrlMatch(s, scheme)
    {
      assert scheme[0] == 'h';
    }
  }

  // ---------------------------------------------------------------------
  // detectColumnType

  /** `detectColumnType`: the first test that passes decides, in the order
      images, url, array, boolean, number, date, string. Whether a string
      is a date (`!isNaN(Date.parse(s))`) is decided by `parsesAsDate`. */
  function DetectColumnType(v: Value, parsesAsDate: string -> bool): (t: ColumnType)
    ensures !t.Unsupported?
    ensures t == Images <==> v.Str? && MatchesImagePattern(v.s)
    ensures t == Url ==> v.Str? && MatchesUrlPattern(v.s)
    ensures t == Tags <==> v.Arr?
    ensures t == Boolean <==> v.Bool?
    ensures t == Number <==> v.Num?
    ensures t == Date ==> v.DateObj? || (v.Str? && parsesAsDate(v.s))
    ensures t == String ==> v.Undefined? || v.Null? || (v.Str? && !parsesAsDate(v.s))
  {
    if v.Str? && MatchesImagePattern(v.s) then Images
    else if v.Str? && MatchesUrlPattern(v.s) then Url
    else if v.Arr? then Tags
    else if v.Bool? then Boolean
    else if v.Num? then Number
    else if v.DateObj? || (v.Str? && parsesAsDate(v.s)) then Date
    else String
  }

  /** An empty sample (`values[0]` is `undefined`) falls through every test. */
  lemma UndefinedIsString(parsesAsDate: string -> bool)
    ensures DetectColumnType(Undefined, parsesAsDate) == String
  {
  }

  /** The two patterns are tested before the date parser is consulted: a
      URL-shaped string is never a date, whatever the parser says. */
  lemma UrlBeatsDate(s: string, parsesAsDate: string -> bool)
    requires MatchesUrlPattern(s)
    ensures DetectColumnType(Str(s), parsesAsDate) in {Images, Url}
  {
  }

  // ---------------------------------------------------------------------
  // shouldBeTags

  /** `new Set(values).size`: objects count once per identity. */
  function UniqueCount(values: seq<Value>): (u: nat)
    ensures u <= |values|
  {
    |Dedup(seq(|values|, i requires 0 <= i < |values| => Ident(values[i])))|
  }

  const MaxUniqueRatio: real := 0.1
  const MinDuplicateRatio: real := 0.05

  /** `shouldBeTags`: few distinct values, many repeats. With no values both
      ratios are NaN and the answer is false. Ratios are exact rationals. */
  function ShouldBeTags(values: seq<Value>): (r: bool)
    ensures r ==> |values| > 0
    ensures r <==> |values| > 0 && 10 * UniqueCount(values) <= |values|
                   && 20 * (|values| - UniqueCount(values)) >= |values|
  {
    var total := |values|;
    var unique := UniqueCount(values);
    var duplicates := total - unique;
    total > 0
    && (unique as real) <= MaxUniqueRatio * (total as real)
    && (duplicates as real) >= MinDuplicateRatio * (total as real)
  }

  /** A non-empty column has at least one distinct value. */
  lemma UniqueCountPositive(values: seq<Value>)
    requires |values| > 0
    ensures UniqueCount(values) >= 1
  {
    var ids := seq(|values|, i requires 0 <= i < |values| => Ident(values[i]));
    DedupProperties(ids);
    assert ids[0] in Dedup(ids);
  }

  /** Fewer than ten values are never tags: one distinct value is already
      more than a tenth of them. */
  lemma FewerThanTenNeverTags(values: seq<Value>)
    requires |values| < 10
    ensures !ShouldBeTags(values)
  {
    if |values| > 0 {
      UniqueCountPositive(values);
    }
  }

  /** On a non-empty column the unique-ratio test implies the duplicate
      test, so the second comparison never changes the outcome. */
  lemma UniqueRatioImpliesDuplicates(values: seq<Value>)
    requires |values| > 0
    requires (UniqueCount(values) as real) <= MaxUniqueRatio * (|values| as real)
    ensures ShouldBeTags(values)
  {
  }

  /** A column of booleans has at most two distinct values, so from twenty
      rows on it is a tag set. */
  lemma BooleanColumnIsTags(values: seq<Value>)
    requires |values| >= 20
    requires forall i :: 0 <= i < |values| ==> values[i].Bool?
    ensures ShouldBeTags(values)
  {
    var ids := seq(|values|, i requires 0 <= i < |values| => Ident(values[i]));
    DedupProperties(ids);
    var d := Dedup(ids);
    forall i | 0 <= i < |d|
      ensures d[i].Bool?
    {
      assert d[i] in ids;
    }
    AtMostTwoBooleans(d);
  }

  /** Distinct booleans number at most two. */
  lemma AtMostTwoBooleans(d: seq<Value>)
    requires forall i :: 0 <= i < |d| ==> d[i].Bool?
    ensures NoDuplicates(d) ==> |d| <= 2
  {
    if |d| >= 3 {
      if d[0].b == d[1].b {
        assert d[0] == d[1];
      } else if d[0].b == d[2].b {
        assert d[0] == d[2];
      } else {
        assert d[1] == d[2];
      }
    }
  }

  // ---------------------------------------------------------------------
  // getColumnTypes

  /** The `keys` argument: every key of the first row, or an explicit list. */
  datatype KeysArg = AllKeys | KeyList(keys: seq<string>)

  /** The `entryLimit` argument: every row, or a number of sampled rows. */
  datatype EntryLimit = AllEntries | Limit(count: int)

  /** The rows inspected. `getRandomEntries` shuffles the data with a random
      comparator and keeps a prefix; `shuffled` stands for the shuffle. */
  function RowsToCheck(data: seq<Row>, limit: EntryLimit, shuffled: seq<Row>): seq<Row>
  {
    match limit
    case AllEntries => data
    case Limit(n) => Slice(shuffled, 0, n)
  }

  /** A numeric limit inspects min(n, rows) rows drawn from the data without
      repetition; "all" inspects the data itself. */
  lemma SampleIsDrawnFromData(data: seq<Row>, limit: EntryLimit, shuffled: seq<Row>)
    requires multiset(shuffled) == multiset(data)
    ensures limit.AllEntries? ==> RowsToCheck(data, limit, shuffled) == data
    ensures limit.Limit? && limit.count >= 0 ==>
              |RowsToCheck(data, limit, shuffled)| == (if limit.count < |data| then limit.count else |data|)
    ensures multiset(RowsToCheck(data, limit, shuffled)) <= multiset(data)
  {
    if limit.Limit? {
      var rows := RowsToCheck(data, limit, shuffled);
      assert |shuffled| == |data| by {
        assert |multiset(shuffled)| == |multiset(data)|;
      }
      var b := ClampIndex(limit.count, |shuffled|);
      if 0 < b {
        assert rows == shuffled[..b];
        assert shuffled == shuffled[..b] + shuffled[b..];
        assert multiset(shuffled) == multiset(shuffled[..b]) + multiset(shuffled[b..]);
      }
    }
  }

  /** The column names: the first row's keys, or the given list. */
  function Columns(data: seq<Row>, keys: KeysArg): seq<string>
    requires keys.KeyList? || |data| > 0
  {
    match keys
    case AllKeys => data[0].keys
    case KeyList(ks) => ks
  }

  /** The type one column receives: the tag test over all of its inspected
      values wins, otherwise the first inspected value is classified. */
  function InferColumn(rows: seq<Row>, key: string, parsesAsDate: string -> bool): (t: ColumnType)
    ensures !t.Unsupported?
    ensures ShouldBeTags(ColumnValues(rows, key)) ==> t == Tags
    ensures !ShouldBeTags(ColumnValues(rows, key)) ==>
              t == DetectColumnType(if rows == [] then Undefined else Get(rows[0], key), parsesAsDate)
  {
    var values := ColumnValues(rows, key);
    if ShouldBeTags(values) then Tags
    else DetectColumnType(if |values| > 0 then values[0] else Undefined, parsesAsDate)
  }

  /** With no rows to inspect (an explicit key list over empty data) every
      column is a string column. */
  lemma NoRowsGiveStrings(key: string, parsesAsDate: string -> bool)
    ensures InferColumn([], key, parsesAsDate) == String
  {
    assert ColumnValues([], key) == [];
  }

  /** `getColumnTypes`: fills the definition key by key. The first row's
      keys are read from `data[0]`, which throws on empty data. */
  method GetColumnTypes(data: seq<Row>, keys: KeysArg, limit: EntryLimit, shuffled: seq<Row>,
                        parsesAsDate: string -> bool)
    returns (r: Result<Definition>)
    requires multiset(shuffled) == multiset(data)
    ensures r.Fail? <==> keys.AllKeys? && data == []
    ensures r.Ok? ==> r.value.Valid() && r.value.keys == Dedup(Columns(data, keys))
    ensures r.Ok? ==> forall k :: k in r.value.types ==>
                        r.value.types[k] == InferColumn(RowsToCheck(data, limit, shuffled), k, parsesAsDate)
  {
    if keys.AllKeys? && data == [] {
      return Fail(TypeError("Cannot convert undefined or null to object"));
    }
    var columns := Columns(data, keys);
    var rowsToCheck := RowsToCheck(data, limit, shuffled);
    var columnTypes := FillColumnTypes(columns, rowsToCheck, parsesAsDate);
    return Ok(columnTypes);
  }

  /** The `for` loop of `getColumnTypes`: one entry per column, set in
      column order; a repeated column name is set again to the same type. */
  method FillColumnTypes(columns: seq<string>, rowsToCheck: seq<Row>, parsesAsDate: string -> bool)
    returns (columnTypes: Definition)
    ensures columnTypes.Valid() && columnTypes.keys == Dedup(columns)
    ensures forall k :: k in columnTypes.types ==>
              columnTypes.types[k] == InferColumn(rowsToCheck, k, parsesAsDate)
  {
    columnTypes := EmptyDefinition;
    var i := 0;
    while i < |columns|
      invariant 0 <= i <= |columns|
      invariant columnTypes.Valid()
      invariant columnTypes.keys == Dedup(columns[..i])
      invariant HoldsInferred(columnTypes, rowsToCheck, parsesAsDate)
    {
      var key := columns[i];
      var t := InferColumn(rowsToCheck, key, parsesAsDate);
      FillStep(columnTypes, columns, i, rowsToCheck, parsesAsDate);
      columnTypes := Put(columnTypes, key, t);
      i := i + 1;
    }
    assert columns[..i] == columns;
  }

  /** Every column of `d` holds the type inferred for it. */
  ghost predicate HoldsInferred(d: Definition, rows: seq<Row>, parsesAsDate: string -> bool)
  {
    forall k :: k in d.types ==> d.types[k] == InferColumn(rows, k, parsesAsDate)
  }

  /** Setting the next column keeps the definition well formed, lists the
      columns seen so far once each, and holds the inferred types. */
  lemma FillStep(d: Definition, columns: seq<string>, i: nat, rows: seq<Row>, parsesAsDate: string -> bool)
    requires i < |columns| && d.Valid() && d.keys == Dedup(columns[..i])
    requires HoldsInferred(d, rows, parsesAsDate)
    ensures var r := Put(d, columns[i], InferColumn(rows, columns[i], parsesAsDate));
            r.Valid() && r.keys == Dedup(columns[..i + 1]) && HoldsInferred(r, rows, parsesAsDate)
  {
    DedupStep(columns, i);
    DedupProperties(columns[..i]);
  }

  /** One more column extends the de-duplicated prefix exactly when the
      column is new. */
  lemma DedupStep(columns: seq<string>, i: nat)
    requires i < |columns|
    ensures Dedup(columns[..i + 1]) ==
              if columns[i] in Dedup(columns[..i]) then Dedup(columns[..i]) else Dedup(columns[..i]) + [columns[i]]
  {
    DedupProperties(columns[..i]);
    DedupSnoc(columns[..i], columns[i]);
    assert columns[..i + 1] == columns[..i] + [columns[i]];
  }

  /** With "all" keys of a well-formed first row (no key twice) the result
      lists exactly that row's keys, in the row's order. */
  lemma AllKeysKeepRowOrder(data: seq<Row>)
    requires |data| > 0 && NoDuplicates(data[0].keys)
    ensures Dedup(Columns(data, AllKeys)) == data[0].keys
  {
    DedupOfDistinct(data[0].keys);
  }

  /** Every inferred type has a row validator and a filter validator, so the
      two schema factories never throw on an inferred definition. */
  lemma InferredDefinitionHasValidators(def: Definition, rows: seq<Row>, parsesAsDate: string -> bool)
    requires def.Valid()
    requires forall k :: k in def.types ==> def.types[k] == InferColumn(rows, k, parsesAsDate)
    ensures CreateColumnSchema(def).Ok? && CreateFilterSchema(def).Ok?
  {
  }
}
