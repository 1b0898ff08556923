# share-csv table core in Dafny

share-csv turns pasted or uploaded CSV data into a filterable table. This
project models the logic under the table:

- **Column-type inference.** A column is given one of the types string,
  number, boolean, date, url, tags or images. The tag test looks at the
  whole column; otherwise the first value inspected is classified.
- **Validators.** Each type has a row validator, and the filter search
  parameters are decoded per type.
- **Column and filter-field generation.** This covers the tag colour hash,
  the option lists, and the number range.
- **Row filters and facet counts.** These are the table's row filters and
  its facet-count override.
- **The numeric range slider.** Its pair of bounds and the search-parameter
  text it commits.
- **The filter panel.** Field order, the reset map, the fields opened by
  default, and the widget per field.
- **The page state.** It keeps the pasted text, the parsed rows, the column
  definition, the columns and the filter fields.
- **The drop zone.** The uploaded-file list, the rejection message, removal
  by index, and the name/extension split.
- **The header's file menu.** Files are grouped by day, and long file names
  are shortened.

A cell or filter value is a JavaScript value (`JsValues.Value`):

- Arrays and `Date` objects carry an identity, because `===`, `Set`, `Map`
  and `includes` compare objects by identity.
- Numbers are integers.

A column definition (`Schema.Definition`) is a record. It keeps its keys in
insertion order, and a stored definition may hold a type name outside the
seven, which is `Unsupported(name)`. A well-formed definition only holds
`Unsupported(name)` for a name that is not one of the seven
(`Schema.WellNamed`), so each type name has exactly one model type. Every
type name a caller can pass has a well-named model type
(`Schema.ParseColumnType`), so requiring it of `Schema.Put`,
`Page.PageState.HandleColumnTypeChange` and
`FilterControls.ControlOfColumnType` excludes no name the source accepts.

Where the source mutates state, the model is imperative:

- `InferTableSchema.GetColumnTypes` fills the definition in a loop.
- `Constants.CollectOptions` pushes options into an accumulator.
- `DataTable.FilterNumber` and `DataTable.FilterDate` sort the caller's
  filter array in place. So does `FilterControls.OrderFields`, with
  `Sorting.SortBy`.
- `DataTable.CountFacets` updates the count map in nested loops.
- `FilterControls.ResetValues` and `FilesDropdown.GroupByDate` build
  records key by key.
- `Page.MergeLoop` runs the column merge.
- The classes `FilterSlider.SliderState`, `Page.PageState` and
  `Dropzone.DropzoneState` hold the component state their handlers
  replace.

Each method is proved against a specification function. The properties
promised by the source are proved as lemmas about that function.

Three facts about the code shape the model:

- The tag thresholds are a unique ratio of at most 0.1 and a duplicate
  ratio of at least 0.05 (`utils/table/infer-table-schema.ts`, lines 34-35).
- A definition is a plain record from column name to type name
  (`components/custom/data-table/schema.ts`, line 12).
- Type detection tests for an array before it tests for a boolean or a
  number (`utils/table/infer-table-schema.ts`, line 11).

## Model

| member | source | states |
|---|---|---|
| InferTableSchema.DetectColumnType | utils/table/infer-table-schema.ts:4-24 | first match wins: images exactly for a string matching the case-insensitive http(s) image-link pattern; url only for a string matching the link pattern; tags exactly for an array; boolean exactly for a boolean; number exactly for a number; date only for a Date or a string the date parser accepts; string for undefined, null or an unparseable string; never an unsupported type |
| InferTableSchema.UndefinedIsString | utils/table/infer-table-schema.ts:20-23 | `undefined` passes no test and is classified as a string, without error |
| InferTableSchema.ShouldBeTags | utils/table/infer-table-schema.ts:27-45 | true exactly for a non-empty column whose distinct values are at most a tenth of it and whose repeats are at least a twentieth of it |
| InferTableSchema.ImageLinkIsUrl | utils/table/infer-table-schema.ts:5-8 | an image link whose scheme is written in lower case (`http:` or `https:`) also passes the case-sensitive link test, so the image test must come first |
| InferTableSchema.UpperCaseSchemeIsNotUrl | utils/table/infer-table-schema.ts:5-8 | a string starting "HTTP" never passes the case-sensitive link test, so an image link with an upper-case scheme is recognised only by the case-insensitive image test |
| InferTableSchema.UrlBeatsDate | utils/table/infer-table-schema.ts:5-22 | a link is classified as images or url, even when the date parser would accept it |
| InferTableSchema.UniqueCountPositive | utils/table/infer-table-schema.ts:28-29 | a non-empty column has at least one distinct value |
| InferTableSchema.FewerThanTenNeverTags | utils/table/infer-table-schema.ts:34-44 | fewer than ten values never pass the tag test, and an empty column gives false |
| InferTableSchema.UniqueRatioImpliesDuplicates | utils/table/infer-table-schema.ts:41-44 | on a non-empty column, passing the unique-ratio test implies the duplicate-ratio test |
| InferTableSchema.BooleanColumnIsTags | utils/table/infer-table-schema.ts:27-45 | a column of at least twenty booleans is a tag column |
| InferTableSchema.AtMostTwoBooleans | utils/table/infer-table-schema.ts:28-29 | a list of booleans without repeats has at most two elements |
| InferTableSchema.SampleIsDrawnFromData | utils/table/infer-table-schema.ts:77-80 | "all" inspects the data itself; a limit n ≥ 0 inspects min(n, rows) rows; the inspected rows are a sub-multiset of the data |
| InferTableSchema.InferColumn | utils/table/infer-table-schema.ts:61-71 | the tag test over the inspected values overrides detection; otherwise the type is that of the first inspected value |
| InferTableSchema.NoRowsGiveStrings | utils/table/infer-table-schema.ts:62-69 | with no rows to inspect, a column is a string column |
| InferTableSchema.GetColumnTypes | utils/table/infer-table-schema.ts:48-74 | fails exactly when all keys are asked of empty data; otherwise one entry per distinct column name in order, each the inferred type over the inspected rows |
| InferTableSchema.FillColumnTypes | utils/table/infer-table-schema.ts:61-71 | the `for` loop leaves a well-formed definition listing each column name once, in first-seen order, each holding the type inferred for that column |
| InferTableSchema.AllKeysKeepRowOrder | utils/table/infer-table-schema.ts:54 | with "all", the keys are the first row's keys in that row's order |
| InferTableSchema.InferredDefinitionHasValidators | components/custom/data-table/schema.ts:29-112 | an inferred definition never makes the row or filter validator factories throw |
| JsValues.ColumnValues | utils/table/infer-table-schema.ts:62 | one value per row, in row order, each the row's cell under the key |
| JsValues.Truthy | components/custom/data-table/constants.tsx:241 | falsy exactly for undefined, null, the empty string, 0 and false |
| JsValues.Display | components/custom/data-table/constants.tsx:249 | a number's text reads back as the number; "true" and "false" are not numbers; an empty array prints as the empty string |
| JsValues.ToNumber | components/custom/data-table/data-table.tsx:84 | undefined is NaN; every other falsy value is 0; a non-zero result comes only from a truthy value; an empty array is 0 |
| Text.CapitalizeFirstLetter | components/custom/data-table/columns.tsx:13 | same length; first character upper-cased and the rest unchanged |
| Text.JoinSplit | components/custom/data-table/schema.ts:74 | joining the pieces of a split with the same delimiter gives the string back |
| Text.SplitJoin | components/custom/data-table/data-table-filter-slider.tsx:56 | splitting a join of pieces that do not contain the delimiter gives the pieces back |
| Text.DecimalRoundTrip | components/custom/data-table/data-table-filter-slider.tsx:56 | a number's decimal text converts back to that number under `Number` |
| Text.StringToNumber | components/custom/data-table/schema.ts:91 | blank text is 0; NaN only for text that is not blank; trimmed decimal digits are their value; a negative result comes only from a leading '-' |
| Text.ParseInt | components/custom/data-table/data-table-filter-slider.tsx:99 | NaN exactly when no digit follows the leading white space and optional sign; a negative result comes only from a leading '-' |
| Text.ParseIntAgreesWithNumber | components/custom/data-table/data-table-filter-slider.tsx:99 | on text that `Number` reads as an integer, `parseInt` reads the same integer |
| Text.LastPiece | components/custom/dropzone/dropzone.tsx:165-166 | a string with the separator is its pieces but the last, joined, then the separator and the last piece; one without it is its own only piece |
| Schema.Put | app/page.tsx:90-95 | the key gets the type; every other key keeps its presence and its type; a new key is appended to the key order and an existing one keeps its place |
| Schema.ParseColumnType | components/custom/data-table/schema.ts:11-12 | every type name has one model type, which prints back as that name; it is unsupported exactly when the name is not one of the seven |
| Schema.TypeNameInjective | components/custom/data-table/schema.ts:11-12 | two well-named types print the same exactly when they are equal, and parsing a printed type gives it back |
| Schema.GetColumnSchema | components/custom/data-table/schema.ts:29-48 | throws exactly for a type outside the seven, with that type's name in the error |
| Schema.CreateColumnSchema | components/custom/data-table/schema.ts:50-60 | succeeds exactly when no type is unsupported; then one validator per key in key order, each the one its type selects; otherwise the error names an unsupported type of the definition |
| Schema.GetFilterSchema | components/custom/data-table/schema.ts:63-112 | throws exactly for a type outside the seven, with that type's name in the error |
| Schema.CreateFilterSchema | components/custom/data-table/schema.ts:114-124 | succeeds exactly when no type is unsupported; then one filter validator per key in key order; otherwise the error names an unsupported type |
| Schema.ClassifyToken | components/custom/data-table/schema.ts:15-26 | a token is a boolean exactly when, lower-cased and trimmed, it is "true" or "false", and its value is true exactly for "true" |
| Schema.DecodeNumberFilter | components/custom/data-table/schema.ts:67-77 | absence is accepted; a value that coerces to a number gives that number; otherwise a single string is accepted exactly when it splits on '-' into two numbers, and a range's bounds are those two numbers |
| Schema.DecodeBooleanFilter | components/custom/data-table/schema.ts:78-83 | absence is accepted; a repeated parameter is rejected; a single string is accepted exactly when none of its comma-separated pieces is JSON other than a boolean, and then gives one token per piece: true or false for a piece that lower-cases to "true" or "false" (after trimming), undefined for a piece that is not JSON |
| Schema.BooleansOf | components/custom/data-table/schema.ts:15-26 | the tokens parse exactly when none is JSON other than a boolean; then one result per token, a boolean exactly for a boolean token |
| Schema.BooleanFilterRoundTrip | components/custom/data-table/schema.ts:78-83 | a non-empty list of booleans written as "true"/"false" and joined by commas decodes to those booleans |
| Schema.UnparseableTokenIsUndefined | components/custom/data-table/schema.ts:19-24 | a piece that is not JSON decodes to an undefined token, not an error |
| Schema.DecodeDateFilter | components/custom/data-table/schema.ts:84-94 | absence is accepted; a value whose coerced number is a valid time gives that date; otherwise a repeated parameter is rejected, and a single string is accepted exactly when every '-'-separated piece converts under `Number` to a valid time, giving those times in order |
| Schema.CoerceNumber | components/custom/data-table/schema.ts:68-70 | a one-element list coerces like its element; two or more elements join with commas and are never a number |
| Schema.DateRoundTrip | components/custom/data-table/schema.ts:85-87 | a valid time written in decimal decodes to that date |
| Schema.DateRangeRoundTrip | components/custom/data-table/schema.ts:88-93 | two non-negative valid times joined by '-' decode to the list of both |
| Schema.DecodeSplitStringsFilter | components/custom/data-table/schema.ts:97-108 | absence is accepted; a single string is rejected; a list of strings gives one comma split per string, each non-empty, each joining back to its string, and no piece holding a comma |
| Schema.SplitStringsRoundTrip | components/custom/data-table/schema.ts:97-108 | non-empty lists of comma-free pieces, each joined by commas, decode to those lists |
| Schema.DecodeOptionalString | components/custom/data-table/schema.ts:65-66 | absence is accepted; a single string is kept as it is; a repeated parameter is rejected |
| Schema.AbsentAlwaysAccepted | components/custom/data-table/schema.ts:63-112 | every filter validator accepts an absent parameter |
| Constants.ToInt32 | components/custom/data-table/constants.tsx:9 | the 32-bit conversion lands in the signed 32-bit range |
| Constants.HashFoldIsPolyHash | components/custom/data-table/constants.tsx:7-9 | the fold with 32-bit shifts equals the polynomial hash Σ code·31^k up to a multiple of 2^32 |
| Constants.Low24IsPolyHash | components/custom/data-table/constants.tsx:10 | the low 24 bits of the fold are the polynomial hash mod 2^24 |
| Constants.ColorFormat | components/custom/data-table/constants.tsx:6-13 | the colour is '#', six hex digits whose value is the low 24 bits of the hash (left-padded with zeros), then the alpha in hex |
| Constants.ColorFromName | components/custom/data-table/constants.tsx:6-14 | '#', six hex digits holding the low 24 bits of the 32-bit hash fold, then the alpha digits |
| Constants.OpacityKeepsChannels | components/custom/data-table/constants.tsx:11-13 | two opacities give the same '#RRGGBB' prefix |
| Constants.AlphaDigits | components/custom/data-table/constants.tsx:11-13 | an alpha of 0..255 is written as one or two hex digits that read back as the alpha |
| Constants.FilterTypeMap | components/custom/data-table/constants.tsx:107-115 | every one of the seven types has a widget kind, never "none"; an unsupported type has none |
| Constants.MathMin | components/custom/data-table/constants.tsx:242 | +Infinity exactly for no values, NaN exactly when a value does not convert to a number, otherwise the least converted value, attained by some value |
| Constants.MathMax | components/custom/data-table/constants.tsx:243 | -Infinity exactly for no values, NaN exactly when a value does not convert, otherwise the greatest converted value, attained by some value |
| Constants.NumberCells | components/custom/data-table/constants.tsx:241 | one value per row: the cell, or 0 when the cell is falsy |
| Constants.DistinctProperties | components/custom/data-table/constants.tsx:223-237 | the distinct values hold no two `===`-equal values, each value seen is `===` to one of them, and each comes from the values seen |
| Constants.DistinctFirstSeenOrder | components/custom/data-table/constants.tsx:227-234 | each distinct value is the first of its `===` class in the input, and they come in increasing order of those first positions |
| Constants.CollectOptions | components/custom/data-table/constants.tsx:223-237 | the accumulator loop pushes exactly the self-labelled distinct flattened values, in first-seen order |
| Constants.PushCell | components/custom/data-table/constants.tsx:224-234 | one row's cell, an array element by element or a single value, extends the options exactly as the distinct values seen so far plus that cell's values |
| Constants.MakeFilterField | components/custom/data-table/constants.tsx:189-197 | label is the key with its first letter upper-cased, value is the key, widget kind is the type's |
| Constants.MakeFilterFields | components/custom/data-table/constants.tsx:189-197 | one field per definition key, in key order, each with that key's label, value and widget kind |
| Constants.BooleanOptionsIgnoreData | components/custom/data-table/constants.tsx:210-217 | a boolean field has exactly the options "true"/true and "false"/false, whatever the data |
| Constants.TagLikeOptions | components/custom/data-table/constants.tsx:218-238 | string, tags and images fields list each flattened cell value once, with label equal to value, no two options `===`, only values that occur, and in the order the values are first seen |
| Constants.UrlOptionsPerRow | components/custom/data-table/constants.tsx:201-208 | a url field has one option per row, its label and value both the cell, with no de-duplication |
| Constants.NumberRangeCoversCells | components/custom/data-table/constants.tsx:240-247 | when every cell (falsy as 0) is numeric, min ≤ every cell ≤ max and both bounds are attained |
| Constants.FalsyCellCountsAsZero | components/custom/data-table/constants.tsx:241-243 | a falsy cell counts as 0, so a finite min is ≤ 0 and a finite max is ≥ 0 |
| Constants.NumberOptionsPerRow | components/custom/data-table/constants.tsx:248-251 | a number field has one option per row, labelled with the cell's string form and valued with the cell |
| Constants.DateAndUnknownFields | components/custom/data-table/constants.tsx:254-262 | a date field opens by default, has the command box disabled and has no options or bounds; an unsupported type gets the base field only |
| Columns.MakeColumn | components/custom/data-table/columns.tsx:23-121 | id and accessor are the key, the title is the capitalised key, booleans get the membership filter and others "auto", and only an unsupported type lacks a cell renderer |
| Columns.BooleanFilterFn | components/custom/data-table/columns.tsx:50-53 | a boolean filter value matches exactly the equal cell; an array matches exactly a cell `===` to one of its elements |
| Columns.MakeColumns | components/custom/data-table/columns.tsx:22-29 | one column per definition key, in key order |
| Columns.ColumnIdsAreKeys | components/custom/data-table/columns.tsx:22-29 | the column ids are exactly the definition's keys, in order |
| Columns.BooleanFilterSingletonAndBoth | components/custom/data-table/columns.tsx:50-53 | a one-element filter array matches like its element (for a non-array element); the array [true, false] matches exactly the boolean cells |
| Columns.TagsOf | components/custom/data-table/columns.tsx:87-88 | an array cell is its own tag list; any other cell becomes a one-element list |
| Columns.MakeBadges | components/custom/data-table/columns.tsx:91-104 | rendering succeeds exactly when every tag is a string, with one badge per tag |
| Columns.RenderCell | components/custom/data-table/columns.tsx:31-121 | a tags cell renders exactly when all its tags are strings; a date cell renders exactly when `new Date(value)` is a valid date and otherwise throws the RangeError of `format`; every other cell renders |
| Columns.FalsyCellsShowPlaceholder | components/custom/data-table/columns.tsx:41-57 | number and boolean cells show the dash placeholder exactly when falsy, including 0 and false |
| Columns.BadgeColoursShareChannels | components/custom/data-table/columns.tsx:96-100 | text, background and border of a badge share the RGB prefix and carry alpha FF, 1A and 33 |
| Columns.BadgeColours | components/custom/data-table/columns.tsx:96-100 | each badge's three colours are the tag's colour at alphas 255, 26 and 51 |
| Sorting.InsertionSortProperties | components/custom/data-table/data-table.tsx:86 | the sorted sequence is ordered by the key and a permutation of the input |
| Sorting.SortPair | components/custom/data-table/data-table.tsx:86-87 | sorting two bounds orders them whichever way they came, keeping the first when equal |
| Sorting.SortBy | components/custom/data-table/data-table.tsx:86 | the array afterwards is the stable insertion sort of its old contents |
| DataTable.FilterNumber | components/custom/data-table/data-table.tsx:82-90 | a number filter matches exactly an equal converted cell; a number array is sorted in place and matches exactly a cell between its bounds; anything else matches nothing and leaves the array alone |
| DataTable.NumberRangeIgnoresOrder | components/custom/data-table/data-table.tsx:85-88 | two bounds given either way round match the same cells: exactly those numerically between them, inclusive |
| DataTable.NumberRangeNeedsTwoBounds | components/custom/data-table/data-table.tsx:87 | fewer than two bounds match nothing |
| DataTable.DateRangeMatch | components/custom/data-table/data-table.tsx:98-102 | a match needs at least two bounds |
| DataTable.DateRangeIgnoresOrder | components/custom/data-table/data-table.tsx:96-103 | two date bounds either way round match exactly the times between them, inclusive |
| DataTable.FilterDate | components/custom/data-table/data-table.tsx:91-106 | a date matches a date cell on the same day; a date array with a date cell is sorted in place and matched as a range; anything else is false and leaves the array alone |
| DataTable.FilterTag | components/custom/data-table/data-table.tsx:107-113 | a string filter is the row's `includes`; an array matches only if some element is included; other shapes and the empty array match nothing |
| DataTable.RowIncludes | components/custom/data-table/data-table.tsx:108-111 | only an array or string row value has `includes`, others throw; an array tests `===` membership, a string tests for the substring, and the empty string is in every string |
| DataTable.AnyIncluded | components/custom/data-table/data-table.tsx:111 | `some` is true exactly when some element is included and none before it threw |
| DataTable.TagFilterOnArrayRow | components/custom/data-table/data-table.tsx:107-111 | on a row list, a one-tag array filters like the tag itself, and an array matches exactly when one of its tags is in the row |
| DataTable.ArrayRowNeverThrows | components/custom/data-table/data-table.tsx:108-111 | on a list or string row value, the tag filter never throws |
| DataTable.FirstHit | components/custom/data-table/data-table.tsx:111 | an included element makes the filter true |
| DataTable.CountIntoAddsOccurrences | components/custom/data-table/data-table.tsx:133-138 | each count grows by exactly the number of occurrences of its key; keys that do not occur are unchanged |
| DataTable.CountFacets | components/custom/data-table/data-table.tsx:124-141 | the base map when no row holds an array; otherwise the base counts plus one per element occurrence, or the TypeError of a row value that cannot be iterated |
| DataTable.CountRow | components/custom/data-table/data-table.tsx:134-137 | counting one row's array adds one to the count of each element occurrence, on top of the counts of the rows before it |
| DataTable.IterationOf | components/custom/data-table/data-table.tsx:133-134 | only arrays and strings can be iterated; an array gives its elements, a string one single-character string per character |
| FilterSlider.InitialPair | components/custom/data-table/data-table-filter-slider.tsx:31-37 | [v, v] for a number filter, the array itself for a number array, [min, max] otherwise |
| FilterSlider.InitialPairOfCommittedFilter | components/custom/data-table/data-table-filter-slider.tsx:31-37 | a committed number array gives back exactly the pair it came from |
| FilterSlider.OtherEnd | components/custom/data-table/data-table-filter-slider.tsx:69 | editing the min looks at the current max, else `max`; editing the max looks at the current min, else `min` |
| FilterSlider.EditPair | components/custom/data-table/data-table-filter-slider.tsx:70-72 | the new pair has two ordered bounds and the edited end equals the input |
| FilterSlider.EditKeepsOrCollapses | components/custom/data-table/data-table-filter-slider.tsx:67-72 | the other end is kept when it is on the right side of the input, and otherwise collapses onto the input |
| FilterSlider.MissingEndUsesBound | components/custom/data-table/data-table-filter-slider.tsx:69 | a missing other end is replaced by the slider's bound |
| FilterSlider.EditIdempotentAndComposes | components/custom/data-table/data-table-filter-slider.tsx:67-72 | repeating an edit changes nothing, and setting min a then max b with a ≤ b gives [a, b] |
| FilterSlider.InputFallback | components/custom/data-table/data-table-filter-slider.tsx:99 | text that parses to 0 or NaN gives the fallback; otherwise the parsed integer |
| FilterSlider.ParseIntOfDecimal | components/custom/data-table/data-table-filter-slider.tsx:99 | `parseInt` reads a number's decimal text back as the number |
| FilterSlider.InputReadsBackItsNumber | components/custom/data-table/data-table-filter-slider.tsx:95-101 | a shown non-zero bound typed back gives itself; "0" and "" give the fallback |
| FilterSlider.CommitPair | components/custom/data-table/data-table-filter-slider.tsx:56 | a committed pair is the low decimal, '-', the high decimal |
| FilterSlider.Commit | components/custom/data-table/data-table-filter-slider.tsx:56 | the committed text of non-negative numbers splits on '-' back into their decimals |
| FilterSlider.CommitRoundTrip | components/custom/data-table/schema.ts:71-76 | for non-negative bounds, the committed text decodes as the range [lo, hi] |
| FilterSlider.NegativeBoundRejected | components/custom/data-table/schema.ts:74-75 | a negative bound makes the committed text split into more than two pieces, and it is rejected |
| FilterSlider.NotTwoPartsRejected | components/custom/data-table/schema.ts:75 | text that is not a number and does not split into two pieces is rejected |
| FilterSlider.SliderState.constructor | components/custom/data-table/data-table-filter-slider.tsx:40 | the slider starts at the initial pair of the column's filter |
| FilterSlider.SliderState.HandleSliderChange | components/custom/data-table/data-table-filter-slider.tsx:62-65 | the slider takes the new value, and the committed text is its join |
| FilterSlider.SliderState.HandleInputChange | components/custom/data-table/data-table-filter-slider.tsx:67-77 | the slider becomes the edited pair, ordered, and the committed text is its join |
| FilterSlider.SliderState.OnMinInput | components/custom/data-table/data-table-filter-slider.tsx:98-101 | typed min text, falling back to `min`, edits the low end |
| FilterSlider.SliderState.OnMaxInput | components/custom/data-table/data-table-filter-slider.tsx:120-123 | typed max text, falling back to `max`, edits the high end |
| FilterControls.FieldOrderUnchanged | components/custom/data-table/data-table-filter-controls.tsx:80-84 | every field has position 0, so the fields are ordered and the stable sort leaves them as they are |
| FilterControls.OrderFields | components/custom/data-table/data-table-filter-controls.tsx:80-84 | absent fields give []; present fields are sorted in place by position and the result is the array, unchanged in order |
| FilterControls.ResetValues | components/custom/data-table/data-table-filter-controls.tsx:97-103 | the reset record has exactly the active filter ids as keys, each once and in first-occurrence order, each mapped to null |
| FilterControls.DefaultOpenMembers | components/custom/data-table/data-table-filter-controls.tsx:116-118 | a value is opened by default exactly when a field with that value is flagged |
| FilterControls.DefaultOpenAreDateColumns | components/custom/data-table/data-table-filter-controls.tsx:116-118 | of the generated fields, exactly the date columns open by default, in key order |
| FilterControls.DefaultOpenIffDate | components/custom/data-table/constants.tsx:254-259 | a generated field opens by default exactly when its column is a date |
| FilterControls.Widget | components/custom/data-table/data-table-filter-controls.tsx:173-193 | each widget kind selects its control; "none" and a missing kind show nothing |
| FilterControls.ControlOfColumnType | components/custom/data-table/data-table-filter-controls.tsx:173-193 | numbers get a slider, booleans and tags check boxes, dates a time range, strings, links and images an input, an unsupported type nothing |
| Page.MergeKeysDomain | app/page.tsx:75-80 | the merge adds exactly the parsed keys that were missing |
| Page.MergeKeysTypes | app/page.tsx:75-80 | a type already set is kept, a parsed key without a type gets "string", and no other key changes |
| Page.MergeKeysSetsAll | app/page.tsx:76-80 | after the merge every parsed key has a type |
| Page.MergeKeysOrder | app/page.tsx:75-80 | the existing keys stay first and in their order |
| Page.MergeOfSetKeys | app/page.tsx:76-79 | merging keys that all have a type changes nothing |
| Page.MergeIdempotent | app/page.tsx:72-80 | parsing the same data twice gives the definition the first parse gave, and an empty parse adds no column |
| Page.MergeLoop | app/page.tsx:75-80 | the copy-and-assign loop computes the merge |
| Page.MergeKeys | app/page.tsx:75-80 | the merged definition is well formed and gains at most one key per parsed key |
| Page.PageState.constructor | app/page.tsx:31-36 | the page starts with no text, no rows, an empty definition, no columns and no filter fields |
| Page.PageState.HandleInputChange | app/page.tsx:59-61 | only the text changes |
| Page.PageState.HandleParseData | app/page.tsx:64-87 | a parse that throws changes nothing; otherwise the rows are the parsed rows, the definition is the merge over the first row's keys, and the columns are rebuilt from it |
| Page.PageState.HandleColumnTypeChange | app/page.tsx:90-95 | the definition gets the new type for that one key; nothing else changes |
| Page.PageState.HandleFilterFields | app/page.tsx:97-99 | the filter fields are rebuilt from the current definition and rows; nothing else changes |
| Page.TypeChangeTouchesOneKey | app/page.tsx:90-95 | a type change sets the key, leaves every other key's presence and type alone, keeps the key order for an existing key, and changes nothing when the type is the same |
| Dropzone.RejectionMessage | components/custom/dropzone/dropzone.tsx:96-101 | "" for no rejections; otherwise it starts "Could not upload " and the first name, and is exactly that for one file |
| Dropzone.RejectionCountReadsBack | components/custom/dropzone/dropzone.tsx:98 | with several rejections, the message ends in ", and k other files." where k reads back as the count minus one |
| Dropzone.RemoveAt | components/custom/dropzone/dropzone.tsx:112-117 | a listed index removes exactly that file and keeps the rest in order; an index past the end changes nothing |
| Dropzone.RemoveAtIsPermutationMinusOne | components/custom/dropzone/dropzone.tsx:112-117 | the files left plus the removed one are the old files, and the others keep their order |
| Dropzone.MinusOneDuplicates | components/custom/dropzone/dropzone.tsx:113-116 | index -1 keeps all but the last file and then appends the whole list again |
| Dropzone.BaseName | components/custom/dropzone/dropzone.tsx:165 | a name with a dot is its base name, a dot and its extension; a name without a dot has an empty base name |
| Dropzone.Extension | components/custom/dropzone/dropzone.tsx:166 | the extension is a dot-free end of the name, and the whole name when it has no dot |
| Dropzone.DropzoneState.constructor | components/custom/dropzone/dropzone.tsx:108-109 | no files and no message |
| Dropzone.DropzoneState.OnDrop | components/custom/dropzone/dropzone.tsx:92-104 | a caller's handler leaves the state alone; otherwise the accepted files are appended in order and the message is the rejection message |
| Dropzone.DropzoneState.DeleteUploadedFile | components/custom/dropzone/dropzone.tsx:112-117 | the file list loses the file at the index, and the message is unchanged |
| FilesDropdown.FormatFiles | components/custom/header/files-dropdown.tsx:71-75 | one menu item per row, in row order |
| FilesDropdown.FormatFilesLosesNothing | components/custom/header/files-dropdown.tsx:71-75 | every row can be read back from its item, so distinct rows give distinct items |
| FilesDropdown.Dates | components/custom/header/files-dropdown.tsx:78 | one day key per item, in item order |
| FilesDropdown.Group | components/custom/header/files-dropdown.tsx:77-84 | a group holds no more items than given, and every one of them has the group's day |
| FilesDropdown.GroupMembers | components/custom/header/files-dropdown.tsx:77-84 | an item is in a group exactly when it is one of the items and its day is the group's key |
| FilesDropdown.GroupSizesSum | components/custom/header/files-dropdown.tsx:77-84 | the group sizes add up to the number of items |
| FilesDropdown.GroupByDate | components/custom/header/files-dropdown.tsx:77-84 | a group key for each distinct day, in order of first occurrence; each group is non-empty and holds that day's items in their original order |
| FilesDropdown.Truncate | components/custom/header/files-dropdown.tsx:103 | a name of at most 18 characters is unchanged; a longer one shows its first 18 characters and "..." |
| FilesDropdown.TruncateIdempotent | components/custom/header/files-dropdown.tsx:103 | shortening twice is shortening once, and long names that share their first 18 characters show the same |

## Left out

- Numbers are integers. Floating point, NaN and -0 as cell values, fractional numbers, and `Infinity` as a slider bound are not modelled. `Math.min`/`Math.max` keep their ±Infinity and NaN results through an extended-integer type.
- Opacity is given as the integer alpha `round(opacity·255)`. The rounding of a fractional opacity and a negative opacity are not modelled.
- `Date.parse`, `isSameDay`, date-fns `format` and `new Date(...)` are parameters of the model (`parsesAsDate`, `sameDay`, `dateKey`, and `validDate` for whether a date cell's `new Date(value)` is valid). The formatted date text itself is not modelled. `Date` values are their time in milliseconds.
- Random sampling is not modelled. The shuffle of the sampled rows is the `shuffled` parameter, which holds the same rows as the data.
- Several functions of `./utils` are not part of this model: `parseCSV` is given as its result or its throw (`parsed`), and `isArrayOfNumbers` and `isArrayOfDates` are taken to test that every element is a number or a Date.
- zod's internals are not modelled: its error reports are one `ValidationError`. `.url()` is the `isUrl` parameter, and JSON parsing of a boolean token other than `true`/`false` is the `isJson` parameter.
- The URL and image patterns are matched on characters directly. Regular-expression engines are not modelled.
- Case mapping is ASCII only, for `toUpperCase`, `toLowerCase` and the case-insensitive image pattern.
- Object keys keep insertion order. The JavaScript ordering of integer-like keys is not modelled.
- Page.Unset: a definition is modelled as a map from column names, so a column named like an `Object.prototype` member is treated as any other name. In the source, `newColumnTypes[key]` for "constructor", "toString" or "valueOf" reads the inherited function, which is truthy, so such a column gets no "string" type; and assigning to "__proto__" adds no key. `Page.MergeKeys`, the definition filled by `InferTableSchema.GetColumnTypes` and the reset record of `FilterControls.ResetValues` carry the same simplification: there, `prev["__proto__"] = null` sets the prototype and adds no key.
- Text.StringToNumber: only the integer forms of `Number(s)` are read (optional sign, decimal digits, white space around). Exponent forms ("1e3"), hexadecimal, binary and octal prefixes ("0x10", "0b11", "0o7") and decimal points ("5.0", "5.", ".5") are NaN in the model, though JavaScript reads them as numbers.
- Text.ParseInt: a "0x" or "0X" prefix is read as the digit 0 and stops there. `parseInt` without a radix reads such text as hexadecimal.
- JsValues.Display: a `Date` prints as its time in milliseconds. JavaScript prints a date text, which depends on the time zone. This affects the number option labels, `JsValues.ToNumber` of an array holding a `Date`, and the substring test of `DataTable.RowIncludes`.
- FilesDropdown.Truncate: lengths count characters (code points). JavaScript's `length` and `slice` count UTF-16 code units, so a name with characters outside the Basic Multilingual Plane is cut at a different place, possibly inside a surrogate pair.
- The following are not modelled: React rendering, hooks and effects; the 300 ms debounce of the slider commit (the handlers return the text they commit); router and search-parameter updates; local storage; Supabase queries and uploads; and `console.log`.
- The drop zone's file-size text (`toFixed(2)` of the size in MB) is floating-point formatting and is not modelled.
- Line 121 of the filter panel reads `["type"]` of a string, which is always `undefined`. It only selects an icon and the shown type, so it is UI and is not modelled.
- When a row value in the facet loop cannot be iterated, the model returns the TypeError. The counts already written into the shared map before the throw are not modelled.
- `data-table-select-coltypes.tsx` imports a value the shown schema module does not export, and it is not part of this model.
- Constants.ToInt32: the hash is modelled with exact 32-bit wrap-around on every step. It is related to the plain polynomial hash only modulo 2^24, which is what the colour uses.
- DataTable.DateRangeMatch: its own contract only says that a match needs two bounds. The range meaning is stated by `DataTable.DateRangeIgnoresOrder` and `DataTable.FilterDate`.
- FilterControls.DefaultOpen: its own contract only bounds the length. Membership and order are stated by `FilterControls.DefaultOpenMembers` and `FilterControls.DefaultOpenAreDateColumns`.
