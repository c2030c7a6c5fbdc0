/**
 * What one `Decode` call promises, stated over `DecodeEffect`, the function
 * `Decoder.Decode` is proved against.
 */
module CsvObjectDecoderProperties {

  import opened Wrappers
  import opened Yaml
  import opened Csv
  import opened CsvObjectDecoder

  /**
   * A call that writes the document read a header, then one non-empty row
   * per element of the sequence, and then reached the end of the input: the
   * i-th element is the row object of the i-th content row, in arrival order.
   */
  lemma SuccessShape(parse: SnippetParser, finished: bool, records: seq<Record>, pos: nat)
    requires DecodeEffect(parse, finished, records, pos).sequence.Some?
    ensures var e := DecodeEffect(parse, finished, records, pos);
            var header := ResultAt(records, pos);
            var s := e.sequence.value;
            !finished && header.err == None && e.outcome == Returned(None) &&
            s.kind == Sequence && s.tag == "!!seq" && s.value == "" &&
            WideRows(records, pos, |header.row|, |s.content|) &&
            (forall i :: 0 <= i < |s.content| ==>
               s.content[i] == ObjectOf(parse, header.row, ReadFrom(records, pos, i).row)) &&
            ReadFrom(records, pos, |s.content|).err == Some(EOF) &&
            pos + 1 + |s.content| == |records| && e.cursor == |records|
  {
    var header := ResultAt(records, pos).row;
    var r := ContentLoop(records, |header|, pos + 1);
    LoopStops(records, |header|, pos);
    ObjectsAt(parse, header, r.rows);
    assert ResultAt(records, pos + 1 + |r.rows|).err == Some(EOF);
  }

  /**
   * The document is written exactly when the decoder is not finished, the
   * header read succeeds, and some run of content rows, each non-empty and
   * at least as wide as the header, is followed by end-of-stream.
   */
  lemma DocumentWrittenIff(parse: SnippetParser, finished: bool, records: seq<Record>, pos: nat)
    ensures DecodeEffect(parse, finished, records, pos).sequence.Some? <==>
              !finished && ResultAt(records, pos).err == None &&
              exists n: nat :: WideRows(records, pos, |ResultAt(records, pos).row|, n) &&
                               ReadFrom(records, pos, n).err == Some(EOF)
  {
    var width := |ResultAt(records, pos).row|;
    if DecodeEffect(parse, finished, records, pos).sequence.Some? {
      SuccessShape(parse, finished, records, pos);
      var n := |DecodeEffect(parse, finished, records, pos).sequence.value.content|;
      assert WideRows(records, pos, width, n) && ReadFrom(records, pos, n).err == Some(EOF);
    } else if !finished && ResultAt(records, pos).err == None {
      if exists n: nat :: WideRows(records, pos, width, n) && ReadFrom(records, pos, n).err == Some(EOF) {
        var n: nat :| WideRows(records, pos, width, n) && ReadFrom(records, pos, n).err == Some(EOF);
        LoopSkips(records, width, pos, n);
        assert false;
      }
    }
  }

  /**
   * When `n` non-empty rows, each as wide as the header, are followed by a
   * tokenizer fault, the call returns that error and leaves the root alone.
   */
  lemma ContentErrorPropagates(parse: SnippetParser, records: seq<Record>, pos: nat, n: nat)
    requires ResultAt(records, pos).err == None
    requires WideRows(records, pos, |ResultAt(records, pos).row|, n)
    requires pos + 1 + n < |records| && records[pos + 1 + n].Fault?
    ensures DecodeEffect(parse, false, records, pos) ==
              Effect(Returned(Some(Failure(records[pos + 1 + n].reason))), None, pos + 2 + n)
  {
    LoopSkips(records, |ResultAt(records, pos).row|, pos, n);
  }

  /**
   * When `n` non-empty rows, each as wide as the header, are followed by an
   * empty row, the loop stops there and the call returns no error without
   * writing the document.
   */
  lemma BlankRowStops(parse: SnippetParser, records: seq<Record>, pos: nat, n: nat)
    requires ResultAt(records, pos).err == None
    requires WideRows(records, pos, |ResultAt(records, pos).row|, n)
    requires pos + 1 + n < |records| && records[pos + 1 + n] == Fields([])
    ensures DecodeEffect(parse, false, records, pos) == Effect(Returned(None), None, pos + 2 + n)
  {
    LoopSkips(records, |ResultAt(records, pos).row|, pos, n);
  }

  /**
   * When `n` wide rows are followed by a non-empty row narrower than the
   * header, the call panics right after reading that row.
   */
  lemma ShortRowPanics(parse: SnippetParser, records: seq<Record>, pos: nat, n: nat)
    requires ResultAt(records, pos).err == None
    requires WideRows(records, pos, |ResultAt(records, pos).row|, n)
    requires pos + 1 + n < |records| && records[pos + 1 + n].Fields?
    requires 0 < |records[pos + 1 + n].cells| < |ResultAt(records, pos).row|
    ensures DecodeEffect(parse, false, records, pos) == Effect(IndexPanic, None, pos + 2 + n)
  {
    LoopSkips(records, |ResultAt(records, pos).row|, pos, n);
  }

  /**
   * After a call that wrote the document the input is drained, so every
   * further call returns EOF and leaves the root alone.
   */
  lemma DrainedAfterSuccess(parse: SnippetParser, records: seq<Record>, pos: nat)
    requires DecodeEffect(parse, false, records, pos).sequence.Some?
    ensures var cursor := DecodeEffect(parse, false, records, pos).cursor;
            DecodeEffect(parse, false, records, cursor) == Effect(Returned(Some(EOF)), None, cursor)
  {
    SuccessShape(parse, false, records, pos);
  }

  /** A header, two rows and the end of the input give a sequence of two mappings. */
  lemma TwoRowsExample(parse: SnippetParser)
    ensures var records := [Fields(["name", "age"]), Fields(["alice", "30"]), Fields(["bob", "25"])];
            DecodeEffect(parse, false, records, 0) ==
              Effect(Returned(None),
                     Some(Node(Sequence, "!!seq", "",
                               [ObjectOf(parse, ["name", "age"], ["alice", "30"]),
                                ObjectOf(parse, ["name", "age"], ["bob", "25"])])),
                     3)
  {
    var records := [Fields(["name", "age"]), Fields(["alice", "30"]), Fields(["bob", "25"])];
    assert ContentLoop(records, 2, 3) == Stopped([], Some(EOF), 3);
    assert ContentLoop(records, 2, 2) == Stopped([["bob", "25"]], Some(EOF), 3);
    assert ContentLoop(records, 2, 1) == Stopped([["alice", "30"], ["bob", "25"]], Some(EOF), 3);
    var header := ["name", "age"];
    var alice := ObjectOf(parse, header, ["alice", "30"]);
    var bob := ObjectOf(parse, header, ["bob", "25"]);
    ObjectsSnoc(parse, header, [], ["alice", "30"], [], alice);
    assert [] + [["alice", "30"]] == [["alice", "30"]];
    ObjectsSnoc(parse, header, [["alice", "30"]], ["bob", "25"], [alice], bob);
    assert [["alice", "30"]] + [["bob", "25"]] == [["alice", "30"], ["bob", "25"]];
    assert ResultAt(records, 0).row == header;
    assert Objects(parse, header, [["alice", "30"], ["bob", "25"]]) == [alice, bob];
  }

  /** The same rows followed by a blank row: the call returns nil but writes no document. */
  lemma BlankRowExample(parse: SnippetParser)
    ensures var records := [Fields(["name", "age"]), Fields(["alice", "30"]), Fields(["bob", "25"]), Fields([])];
            DecodeEffect(parse, false, records, 0) == Effect(Returned(None), None, 4)
  {
    var records := [Fields(["name", "age"]), Fields(["alice", "30"]), Fields(["bob", "25"]), Fields([])];
    assert ContentLoop(records, 2, 3) == Stopped([], None, 4);
    assert ContentLoop(records, 2, 2) == Stopped([["bob", "25"]], None, 4);
  }
}
