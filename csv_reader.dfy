/**
 * The delimited-text reader (`encoding/csv`'s Reader) as the decoder sees it:
 * a pull source that hands out one record per `Read`, then end-of-stream.
 * Tokenizing and quoting are not modelled; the input is the sequence of
 * results the tokenizer would produce.
 */
module Csv {

  import opened Wrappers

  datatype ReadError = EOF | Failure(reason: string)

  /** What the tokenizer yields for one line of input: a row of fields or a parse failure. */
  datatype Record = Fields(cells: seq<string>) | Fault(reason: string)

  /** The `(record, err)` pair `Read` returns. */
  datatype ReadResult = ReadResult(row: seq<string>, err: Option<ReadError>)

  /** The result of a read at position `pos` of the input. */
  function ResultAt(records: seq<Record>, pos: nat): (r: ReadResult)
    ensures pos >= |records| ==> r == ReadResult([], Some(EOF))
    ensures r.err == Some(EOF) <==> pos >= |records|
    ensures r.err == None <==> pos < |records| && records[pos].Fields?
    ensures r.err == None ==> r.row == records[pos].cells
  {
    if pos < |records| then
      match records[pos]
      case Fields(cells) => ReadResult(cells, None)
      case Fault(reason) => ReadResult([], Some(Failure(reason)))
    else
      ReadResult([], Some(EOF))
  }

  /** The read position after a read at `pos`: end-of-stream does not advance it. */
  function After(records: seq<Record>, pos: nat): (next: nat)
  {
    if pos < |records| then pos + 1 else pos
  }

  class Reader {
    /** The field delimiter (`Comma`). */
    var comma: char
    /** The results the underlying input still has to give, from position 0. */
    var records: seq<Record>
    /** The number of records already handed out. */
    var pos: nat

    /** `csv.NewReader`: comma-delimited, positioned at the start of the input. */
    constructor (input: seq<Record>)
      ensures records == input && pos == 0 && comma == ','
    {
      comma, records, pos := ',', input, 0;
    }

    /** The zero value of `csv.Reader`, bound to no input. */
    constructor Unbound()
      ensures records == [] && pos == 0 && comma == '\0'
    {
      comma, records, pos := '\0', [], 0;
    }

    /** `Read`: the record at the current position, or end-of-stream once the input is used up. */
    method Read() returns (row: seq<string>, err: Option<ReadError>)
      modifies this
      ensures ReadResult(row, err) == ResultAt(old(records), old(pos))
      ensures pos == After(old(records), old(pos))
      ensures records == old(records) && comma == old(comma)
    {
      var r := ResultAt(records, pos);
      row, err := r.row, r.err;
      pos := After(records, pos);
    }
  }
}
