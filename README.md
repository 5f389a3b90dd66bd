# Compass notation of BSON values and aggregation pipelines

mongokit prints MongoDB aggregation pipelines in the shell notation that
MongoDB Compass accepts. It has two parts. `bsonToCompassString` is a type
switch over the BSON value kinds of the Go driver. `PipelineToCompassString`
renders each stage of a `mongo.Pipeline` and writes the results out as a
bracketed, comma-separated list.

This project models both functions and proves properties of the text they
produce.

- `numbers.dfy` (module `Numbers`): the fixed-width integer types. It also
  holds the decimal text that Go's `%d` and `%v` print for integers, and the
  zero-padded form that Go's time formatter uses for date fields. Both
  texts are proved to read back as their value.
- `hex.dfy` (module `Hex`): the 24-digit lowercase hex text of an ObjectID
  (`ObjectID.Hex`), with a round trip in each direction.
- `isodate.dfy` (module `IsoDate`): the RFC 3339 text (section 5.6 of
  RFC 3339) of a BSON DateTime in UTC. This covers:
  - Go's truncating quotient and remainder in `DateTime.Time`, which is
    proved to equal floor division;
  - the calendar date, with a round trip back to the day number;
  - the `YYYY-MM-DDTHH:MM:SSZ` layout, which is proved to read back as the
    instant's second.
- `bson.dfy` (module `Bson`):
  - the value kinds that the type switch distinguishes;
  - the ordered document `bson.D`, the array `bson.A` and the map `bson.M`;
  - what a map's iteration order is and is not.
- `compass.dfy` (module `Compass`): the notation as functions (`Render`,
  `PipelineText`), with its properties. These include:
  - compositionality and order preservation for arrays, documents and
    pipelines;
  - the one thing promised about maps: the same parts, possibly in a
    different order;
  - the exact template of each scalar kind, and the fact that strings are
    written unescaped.
- `renderer.dfy` (module `CompassRenderer`): the Go code as it runs. It has
  a `Buffer` class standing for `bytes.Buffer`, and one method per branch
  that appends to the buffer in a loop. The comma guards are modelled as
  the source writes them: `i > 0` for `bson.A`, `bson.D` and the pipeline,
  and the `first` flag for `bson.M`. Each method is proved to produce
  exactly the text that `Compass` specifies.
- `fixtures.dfy` (module `Fixtures`): the cases of the repository's test
  table, proved against the specification.

A `bson.M` is modelled as the entries in the order that one run of Go's map
iteration yields them. Go leaves that order unspecified and randomises it.
The model therefore takes the order as part of the input and promises
nothing about it. For the two-entry maps of the test table, the expected
text holds for one iteration order only (`Fixtures.MatchStageOrder`). The
fixtures list those maps in the order the expected text needs.

## Model

| member | source | states |
|---|---|---|
| Compass.Render | compass.go:14-69 | The notation of a value: an array's text is bracketed, and a document's or map's text is braced, whatever they contain. |
| Compass.ScalarText | compass.go:16-24 | The templates of the non-container kinds (lines 16-24 and 60-67). Every kind except an unrecognised `%v` value gives a non-empty text that opens with neither `[` nor `{`, so a scalar is never mistaken for a container. |
| Compass.PipelineText | compass.go:72-85 | A pipeline's text is bracketed, even when the pipeline is empty. |
| CompassRenderer.RenderValue | compass.go:14-69 | The type switch produces exactly `Render(v)`, for every kind. |
| CompassRenderer.RenderArray | compass.go:25-35 | The `bson.A` loop writes `[`, the item texts in order with a comma before each one except the first, then `]`; this equals `Render(Arr(items))`. |
| CompassRenderer.RenderDocument | compass.go:36-46 | The `bson.D` loop writes `{`, then `"key":value` for each element in stored order with the `i > 0` comma guard, then `}`; this equals `Render(Doc(es))`. |
| CompassRenderer.RenderMap | compass.go:47-59 | The `bson.M` loop with its `first` flag writes `{`, the `"key":value` parts in iteration order, comma-separated, then `}`; this equals `Render(Map(es))`. |
| CompassRenderer.RenderPipeline | compass.go:72-85 | The pipeline loop renders each stage document and writes them in brackets, comma-separated; this equals `PipelineText(pipeline)`. |
| CompassRenderer.Buffer.constructor | compass.go:26 | A new buffer is empty. |
| CompassRenderer.Buffer.WriteString | compass.go:27 | Writing appends the text at the end and changes nothing else. |
| Compass.JoinConcat | compass.go:28-33 | Joining two non-empty runs of parts puts exactly one comma between them: no comma is lost or doubled at the seam. |
| Compass.JoinStep | compass.go:28-33 | A step of the comma-guarded loop: appending a comma when `i > 0`, then part `i`, turns the join of the first `i` parts into the join of the first `i + 1`. |
| Compass.EmptyContainers | compass.go:25-59 | An empty array renders as `[]`; an empty document or map as `{}`; an empty pipeline as `[]`. |
| Compass.ArrayConcat | compass.go:25-35 | Arrays render compositionally and in order: the text of `a + b` is the text of `a` without its `]`, a comma, and the text of `b` without its `[`. |
| Compass.ArraySingleton | compass.go:25-35 | A one-item array is its item's text in brackets, with no comma. |
| Compass.DocConcat | compass.go:36-46 | Documents render compositionally and in stored order, in the same way as arrays. |
| Compass.DocSingleton | compass.go:36-46 | A one-element document is `{"key":value}`. |
| Compass.DocKeepsDuplicates | compass.go:36-46 | A key repeated in a `bson.D` is written once per occurrence, in order; nothing is merged or dropped. |
| Compass.EntryTextsOfOne | compass.go:39-44 | A one-element document or map has exactly one part, `"key":value` of that element. |
| Compass.StageTextsOfThree | compass.go:76-81 | A three-stage pipeline has exactly three parts, each stage's document text, in stage order. |
| Compass.EntryTextsOfTwo | compass.go:39-44 | A two-element document or map has exactly two parts, each `"key":value` of its own element, in order. |
| Compass.MapRendersAsDoc | compass.go:47-59 | The `bson.M` branch writes what the `bson.D` branch writes for the same entries in the same order. |
| Compass.MapEntriesOnce | compass.go:47-59 | For a map (distinct keys), there is one part per key of the map, and each part shows the map's value for that key. |
| Compass.EntryTextsPermutation | compass.go:39-44 | Permuting the entries permutes their `"key":value` parts. |
| Compass.MapRenderingUpToOrder | compass.go:51 | Any two iteration orders of the same Go map list the same entries, and their renderings have the same parts (as a multiset), possibly in a different order. |
| Compass.PipelineIsArrayOfStages | compass.go:72-85 | A pipeline renders exactly as the `bson.A` of its stage documents. |
| Compass.PipelineConcat | compass.go:76-81 | Stages are neither reordered nor filtered: the pipeline `a + b` renders as `a`'s list continued by `b`'s. |
| Compass.PipelineOfOperators | compass.go:72-85 | A pipeline of single-operator stages is the bracketed list of `{"$op":argument}`, one per stage, in order. |
| Compass.StringVerbatim | compass.go:60-61 | A string is written between double quotes with nothing escaped: two characters longer, quote at each end, the string unchanged inside. |
| Compass.UnescapedQuotesCollide | compass.go:60-61 | Because quotes are not escaped, two different arrays (one string ``a","b`` against the two strings `a` and `b`) render to the same text. |
| Compass.Literals | compass.go:62-67 | `nil` renders as `null`; booleans as `true`/`false`; any other value as its own `%v` text. |
| Compass.IntegerText | compass.go:62-63 | `int32`, `int64` and `int` render as canonical decimal text (an optional `-`, no leading zeros) that reads back as the integer. |
| Compass.TimestampText | compass.go:21-22 | `Timestamp(T,I)`: both fields in canonical decimal that reads back as T and I, separated by the only comma, with no spaces. |
| Compass.ObjectIdText | compass.go:16-17 | `ObjectId("…")` holds 24 lowercase hex digits that decode to the identifier's 12 bytes; the text is 36 characters long. |
| Compass.DateTimeText | compass.go:18-20 | For years 0000-9999, `ISODate("…")` holds a 20-character RFC 3339 UTC text naming the instant's second, with milliseconds floored. |
| Compass.DecimalText | compass.go:23-24 | `Decimal128("…")` holds the decimal's own text, unchanged. |
| Numbers.NatText | compass.go:22 | The decimal text of a natural number is canonical, and is one digit long exactly for values below ten. |
| Numbers.ParseNatText | compass.go:22 | The decimal text of `n` reads back as `n`. |
| Numbers.NatTextParse | compass.go:22 | Every canonical digit string is the decimal text of the value it denotes. |
| Numbers.IntText | compass.go:62-63 | The signed decimal text is non-empty and starts with `-` exactly when the integer is negative. |
| Numbers.IntTextRoundTrip | compass.go:62-63 | The signed decimal text of `x` is canonical and reads back as `x`. |
| Numbers.IntTextParse | compass.go:62-63 | Every canonical signed digit string is the text of the integer it denotes. |
| Numbers.PaddedNat | compass.go:20 | A date field below 10^width is written in exactly `width` digits, with leading zeros, and reads back as its value. |
| Hex.Encode | compass.go:17 | The hex text has two lowercase hex digits per byte. |
| Hex.Decode | compass_test.go:13 | `ObjectIDFromHex`'s reading of a hex text: one byte per two hex digits. |
| Hex.DecodeEncode | compass.go:17 | The hex text of the ObjectID's bytes decodes back to those bytes. |
| Hex.EncodeDecode | compass.go:17 | Every even-length lowercase hex text is the hex text of the bytes it denotes. |
| IsoDate.GoQuo | compass.go:19 | Go's quotient truncates toward zero: for a non-negative dividend `q*b <= a < q*b + b` (the floor), and for a negative one `q*b - b < a <= q*b` (the ceiling). |
| IsoDate.UnixSeconds | compass.go:19 | The whole seconds of `DateTime.Time()` bracket the instant: `secs*1000 <= ms < secs*1000 + 1000`. |
| IsoDate.UnixSecondsFloor | compass.go:19 | Those seconds are the floor of the milliseconds over 1000, for negative instants too. |
| IsoDate.LeapShift | compass.go:19-20 | The Gregorian leap rule repeats every 400 years. |
| IsoDate.YearOfEraBounds | compass.go:19-20 | Within a 400-year era, the year of a day is in 0..399, and the day of that (March-based) year is in 0..365, where 365 occurs only when the year's February has 29 days. |
| IsoDate.MarchMonth | compass.go:19-20 | The month of a day of a March-based year is one of the twelve, and the day of the month is at least 1 and at most that month's length. February has 29 days only when the year's February is a leap one. |
| IsoDate.CivilFromDays | compass.go:19-20 | The calendar date of a day number is a real date: a month in 1..12, and a day from 1 to the length of that month in that year, with February's length set by the Gregorian leap rule. |
| IsoDate.CivilRoundTrip | compass.go:19-20 | The calendar date of a day maps back to that day, so distinct days get distinct dates. |
| IsoDate.IsoTruncatesMillis | compass.go:19-20 | Instants within the same second render identically: milliseconds are dropped, never rounded. |
| IsoDate.SecondsText | compass.go:20 | The RFC 3339 text of a Unix second is at least 20 characters long and ends in `Z` (UTC). |
| IsoDate.IsoText | compass.go:19-20 | The text of a DateTime is at least 20 characters long and ends in `Z`: UTC, with no fractional seconds. |
| IsoDate.SecondsTextRoundTrip | compass.go:20 | For years 0000-9999, the text of a Unix second has the `DDDD-DD-DDTDD:DD:DDZ` layout, and its fields read back as that second. |
| IsoDate.IsoTextRoundTrip | compass.go:19-20 | For years 0000-9999, the DateTime's text has that layout and names the instant's whole second. |
| Bson.MapOfEntries | compass.go:51 | With distinct keys, an entry is listed exactly when the map holds it. |
| Bson.EnumerationLength | compass.go:51 | An iteration of a map yields one entry per key. |
| Bson.EnumerationExists | compass.go:51 | Every Go map has an iteration order: some duplicate-free listing yields exactly its entries. |
| Bson.SwapTwo | compass.go:51 | Two entries with different keys, listed in either order, make the same map. |
| Bson.EnumerationsArePermutations | compass.go:51 | Two iteration orders of the same map are permutations of each other. |
| Fixtures.OidFromHex | compass_test.go:13 | The test's identifier text is valid hex for 12 bytes, and it is the hex text of those bytes. |
| Fixtures.ArrayWithNil | compass_test.go:17 | `bson.A{"element1", 42, true, nil}` renders as `["element1",42,true,null]`. |
| Fixtures.ProjectStage | compass_test.go:37-42 | The `$project` stage with that array as `field` renders as the expected text, with the array's text embedded unchanged. |
| Fixtures.DecimalStage | compass_test.go:43-48 | The `$match` stage on a Decimal128 whose text is `1234.5678` renders as the expected text. |
| Fixtures.Address | compass_test.go:51 | The map `{"city": "New York", "zipcode": 10001}`, iterated in that order, renders as `{"city":"New York","zipcode":10001}`. |
| Fixtures.NestedDocuments | compass_test.go:49-54 | That map nested under `address` in a `$match` stage renders as the expected text. |
| Fixtures.DateTimeRender | compass_test.go:14 | The DateTime of 2023-10-10 00:00:00 UTC (1696896000000 ms) renders as `ISODate("2023-10-10T00:00:00Z")`. |
| Fixtures.Day19640 | compass_test.go:14 | Day 19640 after 1970-01-01 is 2023-10-10. |
| Fixtures.TimestampRender | compass_test.go:15 | `Timestamp{T: 1234567890, I: 1}` renders as `Timestamp(1234567890,1)`. |
| Fixtures.Dates | compass_test.go:31-36 | The `createdAt`/`updatedAt` map of the date case, iterated in that order, renders as the expected text. |
| Fixtures.MatchArgument | compass_test.go:25 | The `$match` argument `{"_id": objectID, "status": "active"}`, iterated in that order, renders with `ObjectId("670ef82ee2cfc8452bea7023")`. |
| Fixtures.GroupArgument | compass_test.go:26 | The `$group` argument renders as `{"_id":"$category","total":{"$sum":1}}` in that iteration order. |
| Fixtures.SortArgument | compass_test.go:27 | The `$sort` argument renders as `{"total":-1}`. |
| Fixtures.StageOfOne | compass.go:36-46 | A one-operator stage renders as `{"$op":argument}` with the argument's text embedded unchanged. |
| Fixtures.PipelineOfOne | compass.go:72-85 | A one-stage pipeline is that stage's text in brackets. |
| Fixtures.PipelineOfThree | compass.go:72-85 | A three-stage pipeline is the comma-joined texts of its three stages, in order, in brackets. |
| Fixtures.MatchGroupSort | compass_test.go:23-29 | The whole `$match`/`$group`/`$sort` pipeline renders as the expected text of that case. The `$match` and `$group` argument texts are shown as groups, and the maps are iterated in the order the text needs. |
| Fixtures.DateTimeAndTimestamp | compass_test.go:31-36 | The whole one-stage date pipeline renders as the expected text, with `ISODate("2023-10-10T00:00:00Z")` and `Timestamp(1234567890,1)`, iterated in the order the text needs. |
| Fixtures.MatchStageOrder | compass_test.go:23-29 | The two iteration orders of the `$match` map are the same Go map, but they give different texts; the expected text of that case holds for one order only. |

## Left out

- interfaces.go is not part of this model. It is the driver plumbing around the renderer and computes no notation.
- `Decimal128.String` is taken as given: a `Decimal128` value carries its canonical text. The decimal formatting of the driver is not modelled.
- `float64` values and the default `%v` branch (compass.go:62-63, 66-67) carry the text that Go's `%v` gives them (`Other(text)`). Go's shortest-representation float formatting is not modelled.
- The iteration order of a `bson.M` is an input. Go randomises it, and no order is promised beyond `Compass.MapRenderingUpToOrder`.
- Strings are modelled as sequences of characters. The UTF-8 bytes that `bytes.Buffer` holds are not modelled. Nothing in the renderer depends on the encoding, since it copies strings unchanged.
- Go's own calendar algorithm in the `time` package is replaced by an equivalent civil-date computation over the proleptic Gregorian calendar. `CivilFromDays` shows that each date is a real day of its month under the Gregorian leap rule, and `CivilRoundTrip` shows that it names each day uniquely.
- Compass.DateTimeText: stated for years 0000 to 9999 only. Outside that range Go's RFC 3339 layout writes a sign or more than four digits, and the fixed 20-character shape does not hold.
- IsoDate.SecondsTextRoundTrip and IsoDate.IsoTextRoundTrip: stated for years 0000 to 9999 only, for the same reason.
- The range limits of Go's `time.Time` and its monotonic clock are left out. A DateTime is any 64-bit millisecond count.
- Fixtures.MatchGroupSort and Fixtures.DateTimeAndTimestamp: the whole pipelines of the three-stage and date cases (compass_test.go:23-36) are stated with the argument texts as separate groups inside the string concatenation, not as one flat string literal. The characters are the same.
- Fixtures.MatchArgument: stated for any 12 bytes whose hex text is the test's identifier (`OidFromHex` shows that such bytes exist) rather than for a byte literal.
- Values are finite trees. A Go value can be cyclic: an `interface{}` slot of a `bson.A` or `bson.M` can hold that container itself. The recursion at compass.go:32 and compass.go:56 then never ends, and the program overflows its stack. `CompassRenderer.RenderValue` holds for acyclic values only.
- The test runner (compass_test.go:57-64) and concurrency are left out: the renderer is a sequential pure function of its input.
