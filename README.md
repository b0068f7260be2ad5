# parse_sniff in Dafny

parse_sniff turns a log of sniffed database queries into an enriched event log.
It first reads a host-info file and builds an index from endpoint (`ip:port`)
to the connection's identifier, user and database. Then it reads the sniff log
one record at a time and looks up each record's endpoint `cip:cport`. When the
endpoint is found, an empty user or database is filled from the host record and
the identifier comes from it. When it is not found, the identifier is the
sentinel `99999` and user and database pass through. Every output record has
`rows_sent` 0, the query time and SQL of its input, and a SQL type tag: the
first word of the normalized SQL, or `other` when it has none.

The model has four modules:

- `Wrappers` (wrappers.dfy): the `Option` type.
- `Decimal` (decimal.dfy): Go's `%d` rendering of an `int` (`DecimalString`) and a
  reference reader (`ParseDecimal`) that inverts it.
- `Whitespace` (whitespace.dfy): Go's `unicode.IsSpace` and `strings.Fields`, with
  an independent characterisation of the first word of a text (`IsFirstWord`).
  `Fields` works on positions (`SkipSpace`, `SkipWord`), and its properties are
  proved as lemmas.
- `ParseSniff` (parse_sniff.dfy): the records, the index build (`BuildHostIndex`,
  specified by `HostIndexOf`), the per-record join (`Enrich`), the streaming loop
  (`TransformSniff`), the whole run (`Run`) and the classifier (`SqlType`).

Inputs are the records that JSON decoding produced. A line that fails to decode
is the zero record of its type (`ZeroHostInfo`, `ZeroSniffEntry`). `json.Unmarshal`
checks that the whole line is valid JSON before it fills any field, so a line that
is not valid JSON leaves the fresh struct at its zero value. On a field of the wrong
type, or a number that overflows `int`, it skips that field and fills the rest. So
any record is a possible input. The TiDB normalizer is the parameter
`normalize: string -> string`. Only `MatchedScenario` assumes anything about it:
that it turns `select 1` into `select ?`. Go's `int` is the
subset type `GoInt` (64-bit). No arithmetic is done on these values, so the bound
only shapes the data.

The tag `other` is ambiguous. A normalized statement whose first word is
literally `other` gets the same tag as an empty one. `SqlTypeClassifies` states
this exact condition. The simpler claim "`other` exactly when there is no word"
does not hold for that input.

The code ignores the errors from `json.Marshal` and `output.WriteString`
(parse_sniff.go:102-103), so a failed write does not stop the run. The model
leaves writing out.

An undecodable host-info line puts a `""` entry into the index. No lookup key is
empty, because every key holds a colon. So that entry never changes any output
(`EmptyHostEntryNeverMatched`).

## Model

| member | source | states |
|---|---|---|
| ParseSniff.BuildHostIndex | parse_sniff.go:118-125 | the loop inserts every record under its `Host`, each insert overwriting; the result is the ordered-insert index `HostIndexOf`, and its keys are exactly the input endpoints |
| ParseSniff.HostIndexKeys | parse_sniff.go:118-124 | an endpoint is a key of the index if and only if some input record names it |
| ParseSniff.HostIndexLastWins | parse_sniff.go:120-124 | for duplicate endpoints the index holds the record that comes last in the input |
| ParseSniff.HostIndexEntryIsLatest | parse_sniff.go:120-124 | every entry of the index is the last input record naming its key (converse of last-wins) |
| ParseSniff.MalformedHostLineIndexed | parse_sniff.go:121-123 | a zero-valued (undecodable) host line is still inserted, under key `""` with id 0 and empty user and db, when it is the last such line |
| Decimal.Digits | parse_sniff.go:93 | the digit string of a natural is non-empty, all digits, and begins with `0` only for zero |
| Decimal.DecimalString | parse_sniff.go:93 | `%d` of an int is canonical (non-empty digits, no leading zero, and a minus sign that is never followed by `0`) and begins with `-` exactly for negatives |
| Decimal.CanonicalUnique | parse_sniff.go:93 | the rendering is the only canonical text that reads back as the integer, so with `DecimalRoundTrip` it is fully determined |
| Decimal.DecimalRoundTrip | parse_sniff.go:93 | reading back the rendering of any integer, negatives included, gives the integer |
| Decimal.DecimalInjective | parse_sniff.go:76 | distinct integers render differently |
| ParseSniff.EndpointKeySplits | parse_sniff.go:76 | contract of `EndpointKey`: the lookup key is the client address, then `:`, then the `%d` text of the port, which is canonical and reads back as the port |
| ParseSniff.EndpointKeyInjective | parse_sniff.go:76-77 | two records share a lookup key only when address and port are both equal, even for an address holding colons |
| ParseSniff.EnrichSpec | parse_sniff.go:73-100 | contract of `Enrich`: unmatched: id `"99999"`, user and db unchanged; matched: id is the `%d` text of the host's id and reads back as it, user and db are the record's own when non-empty and the host's otherwise; always rows sent 0, query time = `Cus`, SQL verbatim, tag = `SqlType` |
| ParseSniff.SentinelRendering | parse_sniff.go:80 | the sentinel id 99999 renders as `"99999"` |
| ParseSniff.TransformSniff | parse_sniff.go:72-104 | one output per input, same length, output `i` is the enrichment of input `i` |
| ParseSniff.Run | parse_sniff.go:57-104 | the whole run: the index built from the host lines, then output `i` enriched from sniff record `i` |
| ParseSniff.EnrichAgainstHostInfos | parse_sniff.go:76-98 | the join stated against the host lines: no line names the endpoint gives the sentinel with user and db kept; otherwise the last line for the endpoint decides user, db and the id, which is the `%d` text of that line's id |
| ParseSniff.MatchedScenario | parse_sniff.go:76-100 | host `10.0.0.1:3306` id 7 alice/shop and a record from it with empty user/db running `select 1` gives id `"7"`, time 12, rows 0, alice, shop, tag `select` |
| ParseSniff.UnmatchedScenario | parse_sniff.go:79-98 | a record for user bob from an endpoint no host line names gives id `"99999"` and user bob |
| ParseSniff.EmptyHostEntryNeverMatched | parse_sniff.go:76-77 | no lookup key is empty, so the `""` entry from an undecodable host-info line never changes any output |
| ParseSniff.MalformedSniffLineKey | parse_sniff.go:73-76 | an undecodable sniff line is looked up under `":0"` |
| ParseSniff.SqlTypeClassifies | parse_sniff.go:128-135 | contract of `SqlType`: the tag is one non-empty word without whitespace; all-whitespace normalized text gives `other`; otherwise the tag is the first word of the normalized text; the tag is `other` exactly when there is no word or the first word is `other` |
| Whitespace.FieldsAreWords | parse_sniff.go:130 | every word `strings.Fields` returns is non-empty and free of whitespace |
| Whitespace.FieldsEmpty | parse_sniff.go:130-131 | `strings.Fields` returns no word exactly when the text is all whitespace |
| Whitespace.FirstField | parse_sniff.go:130-133 | when the text is not all whitespace, `words[0]` is its first word: whitespace, then a maximal whitespace-free run |
| Whitespace.FirstWordIsFirstField | parse_sniff.go:130-133 | conversely, any first word of the text is `words[0]`, so a text has only one first word |

## Left out

- Command-line flags and the three path variables (parse_sniff.go:39-55): configuration only.
- Opening and creating files, line reading with `bufio.Scanner`, writing output lines, closing files, and the panics on I/O errors (parse_sniff.go:59-69, 106-108, 112-116). The model takes sequences of decoded records and returns the sequence of output records. The model has no lines, so the scanner's token limit is not modelled. A sniff line longer than that limit stops reading, and lines 106-108 then panic. `readHostInfo` never calls `scanner.Err()`, so a host-info line that is too long silently ends the index at the lines before it, and the run goes on.
- `json.Unmarshal` and `json.Marshal` (parse_sniff.go:74, 102, 122): JSON is not modelled. A failed decode appears as the zero record, and serialisation of the output is left out.
- The internals of `parser.Normalize` from the TiDB parser (parse_sniff.go:129): it is an external library and appears as the `normalize` parameter.
- Go strings are byte strings. The model uses Dafny strings of Unicode scalar values, so invalid UTF-8 in the SQL text is not modelled.
