# yq CSV/TSV object decoder, modelled in Dafny

This project models `csvObjectDecoder`, the decoder that yq uses for CSV and
TSV input when rows are to become objects. The decoder works as follows:

- The first record read is the header row.
- Every later record becomes a `!!map` mapping. Its keys are the header names,
  as string scalars. Its values are the row's cells, each resolved by the
  nested-value parser, or kept as a string scalar when that parser fails.
- For each header name the decoder takes the cell in the same position. It
  ignores cells past the header's width. A row narrower than the header makes
  Go index out of range. (`Init` leaves the CSV reader's `FieldsPerRecord` at
  0, so `encoding/csv` fixes the field count at the header's and reports any
  narrower or wider row as an `ErrFieldCount` error. With the real reader the
  index panic and the cutting of extra cells therefore do not arise; `Decode`
  returns that error instead. The model keeps both paths of the decoder's own
  code, and a field-count error is a `Fault` record.)
- The content loop stops at the first read that fails or gives an empty row.
- When that read was end-of-stream, the caller's root node becomes a document
  node. Its only child is the `!!seq` sequence of the row objects, in arrival
  order. Any other stop returns the read's error, and nil for an empty row.
  In both of those cases the root is left untouched.

Files:

- `wrappers.dfy`: `Option`.
- `yaml.dfy`: the part of the yaml.v3 node model the decoder touches. This is
  the `Node` value, and the class `YamlNode` for the root node, which
  `Decode` updates in place.
- `csv_reader.dfy`: the `encoding/csv` reader as the decoder sees it. It is a
  class over the sequence of records the tokenizer would produce, plus a read
  position. `Read` hands out the next record. Once the input is used up it
  returns EOF, which therefore sticks.
- `csv_object_decoder.dfy`: the decoder, with its pure specification.
  - `ConvertToYamlNode`, `ObjectOf` and `Objects` describe the row objects.
  - `ContentLoop` describes the content loop over the reader's records.
  - `DecodeEffect` gives the whole effect of one `Decode` call.
  - The class `Decoder` holds the three fields of the Go struct. Its methods
    `Init`, `Decode` and `ReadContent` (the content loop of `Decode`) are
    imperative, and so is the method `CreateObject`. `CreateObject`,
    `ReadContent` and `Decode` are proved against those functions; `Init`
    states its new state directly.
- `decoder_properties.dfy`: what a `Decode` call promises, stated over
  `DecodeEffect`. It covers when the document is written (if and only if), its
  exact contents, the error, blank-row and panic paths, draining, and two
  concrete inputs.

Two behaviours of the code worth knowing:

- `finished` is assigned only in `Init`, to false (`decoder_csv_object.go:24`).
  So the `if dec.finished` branch (`:48-50`) can only be taken by a caller
  that set the flag itself, and `Decoder.Decode` ensures that `finished` is
  unchanged.
- A blank content row stops the loop with a nil error. `!errors.Is(nil, io.EOF)`
  is true, so `Decode` returns nil before it writes the root (`:61-69`): the
  root is not written. `BlankRowStops` and `BlankRowExample` state this
  behaviour. (`encoding/csv` itself skips empty lines, so with the real reader
  this case does not arise.)

## Model

| member | source | states |
|---|---|---|
| Yaml.CreateScalarNode | tools/vendor/github.com/mikefarah/yq/v4/pkg/yqlib/decoder_csv_object.go:41 | the key node for a header name is a childless scalar whose value is exactly the name |
| Csv.ResultAt | tools/vendor/github.com/mikefarah/yq/v4/pkg/yqlib/decoder_csv_object.go:51 | a read gives no error exactly when a record of fields is there, and then its cells; past the end it gives exactly an empty row with EOF |
| Csv.Reader.constructor | tools/vendor/github.com/mikefarah/yq/v4/pkg/yqlib/decoder_csv_object.go:22 | a new reader is comma-delimited and positioned at the start of its input |
| Csv.Reader.Read | tools/vendor/github.com/mikefarah/yq/v4/pkg/yqlib/decoder_csv_object.go:59-64 | a read returns the result at the current position and advances past a record but not past the end; the input and delimiter are unchanged |
| CsvObjectDecoder.ConvertToYamlNode | tools/vendor/github.com/mikefarah/yq/v4/pkg/yqlib/decoder_csv_object.go:27-33 | a cell becomes the parser's node when parsing succeeds, otherwise a childless `!!str` scalar holding exactly the cell text |
| CsvObjectDecoder.ObjectShape | tools/vendor/github.com/mikefarah/yq/v4/pkg/yqlib/decoder_csv_object.go:35-45 | a row object is a `!!map` mapping with 2·(header width) children: child 2i is the i-th header name and child 2i+1 the resolved i-th cell |
| CsvObjectDecoder.ExtraCellsIgnored | tools/vendor/github.com/mikefarah/yq/v4/pkg/yqlib/decoder_csv_object.go:38-43 | cells beyond the header's width do not change the row object: it is the object of the row cut to the header's width |
| CsvObjectDecoder.CreateObject | tools/vendor/github.com/mikefarah/yq/v4/pkg/yqlib/decoder_csv_object.go:35-45 | the loop that appends a key/value pair per header returns exactly the row object `ObjectOf` describes |
| CsvObjectDecoder.ObjectsAt | tools/vendor/github.com/mikefarah/yq/v4/pkg/yqlib/decoder_csv_object.go:61-63 | the j-th collected object is the row object of the j-th content row, so arrival order is kept |
| CsvObjectDecoder.ObjectsSnoc | tools/vendor/github.com/mikefarah/yq/v4/pkg/yqlib/decoder_csv_object.go:63 | appending a row's object to the collected objects gives the objects of the rows extended by that row |
| CsvObjectDecoder.ContentLoop | tools/vendor/github.com/mikefarah/yq/v4/pkg/yqlib/decoder_csv_object.go:59-66 | every row the loop keeps is at least as wide as the header; the loop consumes at least one read unless it starts at end-of-stream |
| CsvObjectDecoder.LoopStops | tools/vendor/github.com/mikefarah/yq/v4/pkg/yqlib/decoder_csv_object.go:59-66 | a loop that stops kept exactly the continuing reads, with their rows in order; it stopped at the first read that fails or is empty, returns that read's error, and leaves the reader just past it |
| CsvObjectDecoder.LoopSkips | tools/vendor/github.com/mikefarah/yq/v4/pkg/yqlib/decoder_csv_object.go:61-66 | after n wide, non-empty rows the loop ends the same way as a loop started after those rows, with n more rows kept |
| CsvObjectDecoder.DecodeEffect | tools/vendor/github.com/mikefarah/yq/v4/pkg/yqlib/decoder_csv_object.go:47-77 | a finished decoder returns EOF without reading; a failed header read returns its error; only a nil return can carry a document; the read position never moves back |
| CsvObjectDecoder.Decoder.constructor | tools/vendor/github.com/mikefarah/yq/v4/pkg/yqlib/decoder_csv_object.go:17-19 | a new decoder keeps the separator, is not finished and holds an unbound reader with no input |
| CsvObjectDecoder.Decoder.Init | tools/vendor/github.com/mikefarah/yq/v4/pkg/yqlib/decoder_csv_object.go:21-25 | a fresh reader is bound to the input at its start, its delimiter is the decoder's separator, and `finished` is cleared |
| CsvObjectDecoder.Decoder.Decode | tools/vendor/github.com/mikefarah/yq/v4/pkg/yqlib/decoder_csv_object.go:47-77 | the outcome and the reader's final position are those of `DecodeEffect`; the root becomes a document holding the sequence exactly when there is one, and its kind and children are otherwise unchanged; the tag, value, separator and `finished` never change |
| CsvObjectDecoder.Decoder.ReadContent | tools/vendor/github.com/mikefarah/yq/v4/pkg/yqlib/decoder_csv_object.go:59-66 | the imperative content loop ends as `ContentLoop` says (a panic, or a stop with its rows, error and position), and the objects it collected are those of its rows |
| CsvObjectDecoderProperties.SuccessShape | tools/vendor/github.com/mikefarah/yq/v4/pkg/yqlib/decoder_csv_object.go:57-76 | a written document means: not finished, header read, and a `!!seq` whose i-th element is the object of the i-th content row; every content row was non-empty and wide, and the input then ended, with the reader at its end |
| CsvObjectDecoderProperties.DocumentWrittenIff | tools/vendor/github.com/mikefarah/yq/v4/pkg/yqlib/decoder_csv_object.go:48-76 | a document is written if and only if the decoder is not finished, the header read succeeds, and some run of wide non-empty rows is followed by EOF |
| CsvObjectDecoderProperties.ContentErrorPropagates | tools/vendor/github.com/mikefarah/yq/v4/pkg/yqlib/decoder_csv_object.go:64-69 | a tokenizer failure after n good rows is returned as-is, and the root is left alone |
| CsvObjectDecoderProperties.BlankRowStops | tools/vendor/github.com/mikefarah/yq/v4/pkg/yqlib/decoder_csv_object.go:61-69 | an empty row after n good rows ends the call with a nil error, and no document is written |
| CsvObjectDecoderProperties.ShortRowPanics | tools/vendor/github.com/mikefarah/yq/v4/pkg/yqlib/decoder_csv_object.go:42 | a non-empty row narrower than the header, after n good rows, makes the call panic right after that row is read |
| CsvObjectDecoderProperties.DrainedAfterSuccess | tools/vendor/github.com/mikefarah/yq/v4/pkg/yqlib/decoder_csv_object.go:51-55 | after a call that wrote a document, the next call's header read hits EOF, which it returns without writing anything |
| CsvObjectDecoderProperties.TwoRowsExample | tools/vendor/github.com/mikefarah/yq/v4/pkg/yqlib/decoder_csv_object.go:57-76 | the header `name,age` with rows `alice,30` and `bob,25`, then EOF: a nil return and a sequence of those two row objects |
| CsvObjectDecoderProperties.BlankRowExample | tools/vendor/github.com/mikefarah/yq/v4/pkg/yqlib/decoder_csv_object.go:61-69 | the same input followed by a blank row: a nil return and no document |

## Left out

- Tokenizing is not modelled. This covers quoting, the delimiter's effect on
  splitting, comment characters, blank-line skipping and `encoding/csv`'s
  field-count check. The reader's input is the sequence of records the
  tokenizer would produce. Any tokenizer error, including a field-count
  mismatch, is a `Fault` record with its message.
- The `io.Reader` behind the CSV reader is replaced by that record sequence.
  I/O errors are `Fault` records too.
- `parseSnippet` and `createScalarNode` are defined elsewhere in yqlib and
  are not part of this model.
  - The snippet parser is a function parameter that yields a node or
    fails.
  - `createScalarNode(s, s)` is modelled as its Go-string case, a `!!str`
    scalar.
- `log.Debugf` calls (`:52`, `:62`, `:65`, `:71-72`) are left out. They are
  logging only.
- `errors.Is` unwrapping is not modelled. The reader's errors are never
  wrapped here, so the `errors.Is(err, io.EOF)` test is plain equality with
  EOF.
- CsvObjectDecoder.CreateObject: requires the row to be at least as wide as the header. Where
  Go would panic inside the loop, `Decode` checks the width first and ends
  with the `IndexPanic` outcome. Go's stack unwinding is not modelled, and the
  root stays untouched.
- CsvObjectDecoder.Decoder.constructor: the reader is modelled as an unbound reader with no
  input, so a `Decode` before `Init` returns EOF. In Go the zero-value
  `csv.Reader` has no underlying reader, and reading from it would fail with a
  nil dereference.
- yaml.v3 node fields other than kind, tag, value and children are left out:
  style, anchors, alias targets, comments and positions. The decoder never
  sets them.
- The Go `rune` separator is a Dafny `char`. The model only stores it and
  hands it to the reader.
- CsvObjectDecoder.Decoder.ReadContent is the content loop of `Decode` (`:57-66`) moved into a
  method of its own so that it can be specified on its own. Its `rows`
  result is ghost and records the content rows the loop consumed.
- `tools/codegen/pkg/generation/types.go` plays no part in the decoder and is
  not part of this model.
