/**
 * yq's CSV/TSV "object" decoder: the first row is the header, every further
 * non-empty row becomes a mapping from header names to cell values, and the
 * mappings are collected, in arrival order, into one sequence that becomes
 * the caller's document once the reader reports end-of-stream.
 */
module CsvObjectDecoder {

  import opened Wrappers
  import opened Yaml
  import opened Csv

  // ---------------------------------------------------------------------------
  // Cell resolution and row objects
  // ---------------------------------------------------------------------------

  /**
   * `convertToYamlNode`: the parser's node when the cell text parses as a
   * snippet, otherwise a string scalar carrying exactly that text. It never fails.
   */
  function ConvertToYamlNode(parse: SnippetParser, content: string): (n: Node)
    ensures parse(content).Some? ==> n == parse(content).value
    ensures parse(content).None? ==> n.kind == Scalar && n.tag == "!!str" && n.value == content && n.content == []
  {
    match parse(content)
    case Some(node) => node
    case None => CreateScalarNode(content)
  }

  /**
   * The key/value children of the mapping built from the first `|header|`
   * cells of `row`, in the order `createObject` appends them.
   */
  function Pairs(parse: SnippetParser, header: seq<string>, row: seq<string>): (s: seq<Node>)
    requires |row| >= |header|
    ensures |s| == 2 * |header|
    decreases |header|
  {
    if header == [] then []
    else
      var k := |header| - 1;
      Pairs(parse, header[..k], row) + [CreateScalarNode(header[k]), ConvertToYamlNode(parse, row[k])]
  }

  /** The mapping node `createObject` returns for one content row. */
  function ObjectOf(parse: SnippetParser, header: seq<string>, row: seq<string>): (o: Node)
    requires |row| >= |header|
  {
    Node(Mapping, "!!map", "", Pairs(parse, header, row))
  }

  /**
   * The row object is a `!!map` mapping with one key/value pair per header:
   * the key at 2i is the i-th header name, the value at 2i+1 the resolved i-th cell.
   */
  lemma {:induction false} ObjectShape(parse: SnippetParser, header: seq<string>, row: seq<string>)
    requires |row| >= |header|
    ensures ObjectOf(parse, header, row).kind == Mapping
    ensures ObjectOf(parse, header, row).tag == "!!map"
    ensures |ObjectOf(parse, header, row).content| == 2 * |header|
    ensures forall i :: 0 <= i < |header| ==>
              ObjectOf(parse, header, row).content[2 * i] == CreateScalarNode(header[i]) &&
              ObjectOf(parse, header, row).content[2 * i + 1] == ConvertToYamlNode(parse, row[i])
  {
    PairsAt(parse, header, row);
  }

  lemma {:induction false} PairsAt(parse: SnippetParser, header: seq<string>, row: seq<string>)
    requires |row| >= |header|
    ensures forall i :: 0 <= i < |header| ==>
              Pairs(parse, header, row)[2 * i] == CreateScalarNode(header[i]) &&
              Pairs(parse, header, row)[2 * i + 1] == ConvertToYamlNode(parse, row[i])
    decreases |header|
  {
    if header != [] {
      var k := |header| - 1;
      PairsAt(parse, header[..k], row);
    }
  }

  /** Cells past the header's width play no part in the row object. */
  lemma {:induction false} ExtraCellsIgnored(parse: SnippetParser, header: seq<string>, row: seq<string>, extra: seq<string>)
    requires |row| >= |header|
    ensures ObjectOf(parse, header, row + extra) == ObjectOf(parse, header, row)
    ensures ObjectOf(parse, header, row) == ObjectOf(parse, header, row[..|header|])
  {
    PairsPrefix(parse, header, row, row + extra);
    PairsPrefix(parse, header, row, row[..|header|]);
  }

  /** `Pairs` reads only the first `|header|` cells of the row. */
  lemma {:induction false} PairsPrefix(parse: SnippetParser, header: seq<string>, row: seq<string>, other: seq<string>)
    requires |row| >= |header| && |other| >= |header|
    requires row[..|header|] == other[..|header|]
    ensures Pairs(parse, header, row) == Pairs(parse, header, other)
    decreases |header|
  {
    if header != [] {
      var k := |header| - 1;
      assert row[k] == row[..|header|][k] == other[..|header|][k] == other[k];
      assert row[..k] == row[..|header|][..k];
      assert other[..k] == other[..|header|][..k];
      PairsPrefix(parse, header[..k], row, other);
    }
  }

  /**
   * `createObject`: zips the header with the row by the header's length.
   * A row shorter than the header would index out of range (a Go panic), so
   * callers must supply at least as many cells as there are headers.
   */
  method CreateObject(parse: SnippetParser, headerRow: seq<string>, contentRow: seq<string>) returns (objectNode: Node)
    requires |contentRow| >= |headerRow|
    ensures objectNode == ObjectOf(parse, headerRow, contentRow)
    ensures objectNode.kind == Mapping && objectNode.tag == "!!map"
    ensures |objectNode.content| == 2 * |headerRow|
    ensures forall i :: 0 <= i < |headerRow| ==>
              objectNode.content[2 * i] == CreateScalarNode(headerRow[i]) &&
              objectNode.content[2 * i + 1] == ConvertToYamlNode(parse, contentRow[i])
  {
    objectNode := Node(Mapping, "!!map", "", []);
    var i := 0;
    while i < |headerRow|
      invariant 0 <= i <= |headerRow|
      invariant objectNode == Node(Mapping, "!!map", "", Pairs(parse, headerRow[..i], contentRow))
    {
      assert headerRow[..i + 1][..i] == headerRow[..i];
      objectNode := objectNode.(content := objectNode.content +
                                [CreateScalarNode(headerRow[i]), ConvertToYamlNode(parse, contentRow[i])]);
      i := i + 1;
    }
    assert headerRow[..i] == headerRow;
    ObjectShape(parse, headerRow, contentRow);
  }

  /**
   * The row objects of `rows`, one per row and in row order; every row is at
   * least as wide as the header.
   */
  function Objects(parse: SnippetParser, header: seq<string>, rows: seq<seq<string>>): (objs: seq<Node>)
    requires forall j :: 0 <= j < |rows| ==> |rows[j]| >= |header|
    ensures |objs| == |rows|
    decreases |rows|
  {
    if rows == [] then []
    else Objects(parse, header, rows[..|rows| - 1]) + [ObjectOf(parse, header, rows[|rows| - 1])]
  }

  /** The j-th row object is the object of the j-th row. */
  lemma {:induction false} ObjectsAt(parse: SnippetParser, header: seq<string>, rows: seq<seq<string>>)
    requires forall j :: 0 <= j < |rows| ==> |rows[j]| >= |header|
    ensures forall j :: 0 <= j < |rows| ==> Objects(parse, header, rows)[j] == ObjectOf(parse, header, rows[j])
    decreases |rows|
  {
    if rows != [] {
      var init := rows[..|rows| - 1];
      ObjectsAt(parse, header, init);
      forall j | 0 <= j < |rows| - 1
        ensures rows[j] == init[j]
      {
      }
    }
  }

  /** Appending a row to `rows` appends its row object to their objects. */
  lemma ObjectsSnoc(parse: SnippetParser, header: seq<string>, rows: seq<seq<string>>, row: seq<string>,
                    objs: seq<Node>, obj: Node)
    requires forall j :: 0 <= j < |rows| ==> |rows[j]| >= |header|
    requires |row| >= |header|
    requires objs == Objects(parse, header, rows) && obj == ObjectOf(parse, header, row)
    ensures objs + [obj] == Objects(parse, header, rows + [row])
  {
    assert (rows + [row])[..|rows|] == rows;
  }

  // ---------------------------------------------------------------------------
  // The content loop, stated over the reader's input
  // ---------------------------------------------------------------------------

  /** The content loop goes on while a read succeeds with a non-empty row. */
  predicate Continues(r: ReadResult) {
    r.err == None && |r.row| > 0
  }

  /** The `i`-th read after the read at position `h` (the header's, for the content loop). */
  function ReadFrom(records: seq<Record>, h: nat, i: nat): (r: ReadResult) {
    ResultAt(records, h + 1 + i)
  }

  /** The first `n` reads after position `h` give non-empty rows at least `width` wide. */
  ghost predicate WideRows(records: seq<Record>, h: nat, width: nat, n: nat) {
    forall i :: 0 <= i < n ==> Continues(ReadFrom(records, h, i)) && |ReadFrom(records, h, i).row| >= width
  }

  /**
   * How the content loop ends: it stops at a read that does not continue it,
   * holding the content rows consumed before it, that read's error and the
   * reader's position; or it panics on a row narrower than the header.
   */
  datatype LoopEnd = Stopped(rows: seq<seq<string>>, err: Option<ReadError>, cursor: nat) | Panicked(cursor: nat)

  /**
   * The content loop of `Decode` run from read position `k` under a header of
   * `width` fields. Every row it keeps is at least as wide as the header.
   */
  function ContentLoop(records: seq<Record>, width: nat, k: nat): (r: LoopEnd)
    ensures r.Stopped? ==> forall j :: 0 <= j < |r.rows| ==> |r.rows[j]| >= width
    ensures k < r.cursor || (r.Stopped? && r.rows == [] && r.cursor == k && k >= |records|)
    decreases |records| - k
  {
    var read := ResultAt(records, k);
    if !Continues(read) then Stopped([], read.err, After(records, k))
    else if |read.row| < width then Panicked(k + 1)
    else
      match ContentLoop(records, width, k + 1)
      case Stopped(rows, err, cursor) => Stopped([read.row] + rows, err, cursor)
      case Panicked(cursor) => Panicked(cursor)
  }

  /** The loop's end from some position, given the rows `done` consumed before it. */
  function Resume(done: seq<seq<string>>, rest: LoopEnd): (r: LoopEnd) {
    match rest
    case Stopped(rows, err, cursor) => Stopped(done + rows, err, cursor)
    case Panicked(cursor) => Panicked(cursor)
  }

  /** One wide, continuing read after `done` adds its row to them. */
  lemma LoopStep(records: seq<Record>, width: nat, start: nat, done: seq<seq<string>>)
    requires ContentLoop(records, width, start + 1) == Resume(done, ContentLoop(records, width, start + 1 + |done|))
    requires Continues(ResultAt(records, start + 1 + |done|))
    requires |ResultAt(records, start + 1 + |done|).row| >= width
    ensures var row := ResultAt(records, start + 1 + |done|).row;
            ContentLoop(records, width, start + 1) ==
            Resume(done + [row], ContentLoop(records, width, start + 1 + |done + [row]|))
  {
    var row := ResultAt(records, start + 1 + |done|).row;
    var rest := ContentLoop(records, width, start + 2 + |done|);
    if rest.Stopped? {
      assert done + ([row] + rest.rows) == (done + [row]) + rest.rows;
    }
  }

  /**
   * The state of the content loop of `Decode` after `rows` were consumed from
   * position `start + 1` on: their objects are `items`, the pending read is
   * `(row, err)` and the reader sits at `pos`.
   */
  ghost predicate Scanned(parse: SnippetParser, header: seq<string>, records: seq<Record>, start: nat,
                          rows: seq<seq<string>>, items: seq<Node>, row: seq<string>, err: Option<ReadError>, pos: nat)
  {
    && (forall j :: 0 <= j < |rows| ==> |rows[j]| >= |header|)
    && items == Objects(parse, header, rows)
    && ReadResult(row, err) == ResultAt(records, start + 1 + |rows|)
    && pos == After(records, start + 1 + |rows|)
    && ContentLoop(records, |header|, start + 1) == Resume(rows, ContentLoop(records, |header|, start + 1 + |rows|))
  }

  /** The first content read starts the loop with nothing consumed. */
  lemma ScanStart(parse: SnippetParser, header: seq<string>, records: seq<Record>, start: nat,
                  row: seq<string>, err: Option<ReadError>, pos: nat)
    requires ReadResult(row, err) == ResultAt(records, start + 1) && pos == After(records, start + 1)
    ensures Scanned(parse, header, records, start, [], [], row, err, pos)
  {
    var whole := ContentLoop(records, |header|, start + 1);
    if whole.Stopped? {
      assert [] + whole.rows == whole.rows;
    }
  }

  /**
   * A wide, continuing pending read adds its row and its object, and the next
   * read from the reader's position becomes pending.
   */
  lemma ScanStep(parse: SnippetParser, header: seq<string>, records: seq<Record>, start: nat,
                 rows: seq<seq<string>>, items: seq<Node>, row: seq<string>, err: Option<ReadError>, pos: nat,
                 obj: Node, nextRow: seq<string>, nextErr: Option<ReadError>, nextPos: nat)
    requires Scanned(parse, header, records, start, rows, items, row, err, pos)
    requires Continues(ReadResult(row, err)) && |row| >= |header|
    requires obj == ObjectOf(parse, header, row)
    requires ReadResult(nextRow, nextErr) == ResultAt(records, pos) && nextPos == After(records, pos)
    ensures |rows| < |records|
    ensures Scanned(parse, header, records, start, rows + [row], items + [obj], nextRow, nextErr, nextPos)
  {
    LoopStep(records, |header|, start, rows);
    ObjectsSnoc(parse, header, rows, row, items, obj);
    assert pos == start + 1 + |rows + [row]|;
  }

  /** A pending read that does not continue the loop ends it with the rows consumed. */
  lemma ScanExit(parse: SnippetParser, header: seq<string>, records: seq<Record>, start: nat,
                 rows: seq<seq<string>>, items: seq<Node>, row: seq<string>, err: Option<ReadError>, pos: nat)
    requires Scanned(parse, header, records, start, rows, items, row, err, pos)
    requires !Continues(ReadResult(row, err))
    ensures ContentLoop(records, |header|, start + 1) == Stopped(rows, err, pos)
    ensures items == Objects(parse, header, rows)
  {
    assert rows + [] == rows;
  }

  /** A continuing pending read narrower than the header makes the loop panic. */
  lemma ScanShort(parse: SnippetParser, header: seq<string>, records: seq<Record>, start: nat,
                  rows: seq<seq<string>>, items: seq<Node>, row: seq<string>, err: Option<ReadError>, pos: nat)
    requires Scanned(parse, header, records, start, rows, items, row, err, pos)
    requires Continues(ReadResult(row, err)) && |row| < |header|
    ensures ContentLoop(records, |header|, start + 1) == Panicked(pos)
  {
  }

  /**
   * A loop started after the read at `h` that stops has consumed exactly the
   * continuing reads, in order, and stopped at the first read that does not
   * continue it, returning that read's error.
   */
  lemma {:induction false} LoopStops(records: seq<Record>, width: nat, h: nat)
    requires ContentLoop(records, width, h + 1).Stopped?
    ensures var r := ContentLoop(records, width, h + 1);
            (forall i :: 0 <= i < |r.rows| ==>
               Continues(ReadFrom(records, h, i)) && r.rows[i] == ReadFrom(records, h, i).row) &&
            !Continues(ReadFrom(records, h, |r.rows|)) &&
            r.err == ReadFrom(records, h, |r.rows|).err &&
            r.cursor == After(records, h + 1 + |r.rows|)
    decreases |records| - h
  {
    var read := ResultAt(records, h + 1);
    if Continues(read) {
      var next := h + 1;
      LoopStops(records, width, next);
      var r := ContentLoop(records, width, next);
      var rest := ContentLoop(records, width, next + 1);
      assert r.rows == [read.row] + rest.rows;
      forall i | 1 <= i < |r.rows|
        ensures ReadFrom(records, h, i) == ReadFrom(records, next, i - 1)
        ensures r.rows[i] == rest.rows[i - 1]
      {
      }
      assert ReadFrom(records, h, |r.rows|) == ReadFrom(records, next, |rest.rows|);
    }
  }

  /**
   * `n` wide, continuing reads after the read at `h` are consumed, and the
   * loop goes on after them.
   */
  lemma {:induction false} LoopSkips(records: seq<Record>, width: nat, h: nat, n: nat)
    requires WideRows(records, h, width, n)
    ensures var r := ContentLoop(records, width, h + 1);
            var rest := ContentLoop(records, width, h + 1 + n);
            r.Panicked? == rest.Panicked? && r.cursor == rest.cursor &&
            (r.Stopped? ==> r.err == rest.err && |r.rows| == n + |rest.rows|)
    decreases n
  {
    if n > 0 {
      assert ReadFrom(records, h, 0) == ResultAt(records, h + 1);
      var next := h + 1;
      forall i | 0 <= i < n - 1
        ensures ReadFrom(records, next, i) == ReadFrom(records, h, i + 1)
      {
      }
      LoopSkips(records, width, next, n - 1);
    }
  }

  /** How a call to `Decode` ends: it returns an error value (nil is `None`), or it panics. */
  datatype Outcome = Returned(err: Option<ReadError>) | IndexPanic

  /**
   * What one `Decode` call does: how it ends, the `!!seq` node it installs as
   * the root's only child (`None` when it leaves the root alone), and the read
   * position it leaves the reader at.
   */
  datatype Effect = Effect(outcome: Outcome, sequence: Option<Node>, cursor: nat)

  /** The effect of `Decode` on a reader at position `pos` of `records`. */
  function DecodeEffect(parse: SnippetParser, finished: bool, records: seq<Record>, pos: nat): (e: Effect)
    ensures finished ==> e == Effect(Returned(Some(EOF)), None, pos)
    ensures !finished && ResultAt(records, pos).err.Some? ==>
              e == Effect(Returned(ResultAt(records, pos).err), None, After(records, pos))
    ensures e.sequence.Some? ==> e.outcome == Returned(None)
    ensures pos <= e.cursor
  {
    var head := ResultAt(records, pos);
    if finished then Effect(Returned(Some(EOF)), None, pos)
    else if head.err.Some? then Effect(Returned(head.err), None, After(records, pos))
    else
      match ContentLoop(records, |head.row|, pos + 1)
      case Panicked(cursor) => Effect(IndexPanic, None, cursor)
      case Stopped(rows, err, cursor) =>
        if err == Some(EOF) then Effect(Returned(None), Some(Node(Sequence, "!!seq", "", Objects(parse, head.row, rows))), cursor)
        else Effect(Returned(err), None, cursor)
  }

  // ---------------------------------------------------------------------------
  // The decoder object
  // ---------------------------------------------------------------------------

  class Decoder {
    var separator: char
    var reader: Reader
    var finished: bool

    /** `NewCSVObjectDecoder`: stores the separator; the reader is the unbound zero value. */
    constructor (separator: char)
      ensures this.separator == separator && !finished
      ensures fresh(reader) && reader.records == [] && reader.pos == 0
    {
      this.separator := separator;
      reader := new Reader.Unbound();
      finished := false;
    }

    /** `Init`: binds a fresh reader over `input`, delimited by the separator, and clears `finished`. */
    method Init(input: seq<Record>)
      modifies this
      ensures fresh(reader)
      ensures reader.records == input && reader.pos == 0 && reader.comma == separator
      ensures !finished && separator == old(separator)
    {
      reader := new Reader(input);
      reader.comma := separator;
      finished := false;
    }

    /**
     * `Decode`: reads the header and the content rows and, when the rows end
     * at end-of-stream, makes `root` a document holding their sequence.
     * It changes neither `separator` nor `finished`.
     */
    method Decode(parse: SnippetParser, root: YamlNode) returns (outcome: Outcome)
      modifies reader, root
      ensures separator == old(separator) && finished == old(finished) && reader == old(reader)
      ensures reader.records == old(reader.records) && reader.comma == old(reader.comma)
      ensures var e := DecodeEffect(parse, old(finished), old(reader.records), old(reader.pos));
              outcome == e.outcome && reader.pos == e.cursor &&
              (e.sequence.Some? ==> root.kind == Document && root.content == [e.sequence.value]) &&
              (e.sequence.None? ==> root.kind == old(root.kind) && root.content == old(root.content))
      ensures root.tag == old(root.tag) && root.value == old(root.value)
    {
      if finished {
        return Returned(Some(EOF));
      }
      ghost var start := reader.pos;
      var headerRow, err := reader.Read();
      if err.Some? {
        return Returned(err);
      }
      var items, panicked;
      ghost var rows;
      items, err, panicked, rows := ReadContent(parse, headerRow, start);
      if panicked {
        return IndexPanic;
      }
      if err != Some(EOF) {
        return Returned(err);
      }
      root.kind := Document;
      root.content := [Node(Sequence, "!!seq", "", items)];
      return Returned(None);
    }

    /**
     * The content loop of `Decode`, after the header row was read at `start`:
     * one row object per non-empty row until a read fails or yields an empty
     * row. `panicked` reports a row narrower than the header, at which the Go
     * code indexes out of range.
     */
    method ReadContent(parse: SnippetParser, headerRow: seq<string>, ghost start: nat)
      returns (items: seq<Node>, err: Option<ReadError>, panicked: bool, ghost rows: seq<seq<string>>)
      requires reader.pos == start + 1
      modifies reader
      ensures reader.records == old(reader.records) && reader.comma == old(reader.comma)
      ensures ContentLoop(reader.records, |headerRow|, start + 1) ==
              if panicked then Panicked(reader.pos) else Stopped(rows, err, reader.pos)
      ensures !panicked ==> items == Objects(parse, headerRow, rows)
    {
      ghost var records := reader.records;
      items, rows := [], [];
      var contentRow;
      contentRow, err := reader.Read();
      ScanStart(parse, headerRow, records, start, contentRow, err, reader.pos);
      while err == None && |contentRow| > 0
        invariant reader.records == records && reader.comma == old(reader.comma)
        invariant Scanned(parse, headerRow, records, start, rows, items, contentRow, err, reader.pos)
        decreases |records| - |rows|
      {
        if |contentRow| < |headerRow| {
          ScanShort(parse, headerRow, records, start, rows, items, contentRow, err, reader.pos);
          return items, err, true, rows;
        }
        var objectNode := CreateObject(parse, headerRow, contentRow);
        ghost var (rows0, items0, row0, err0, pos0) := (rows, items, contentRow, err, reader.pos);
        items, rows := items + [objectNode], rows + [contentRow];
        contentRow, err := reader.Read();
        ScanStep(parse, headerRow, records, start, rows0, items0, row0, err0, pos0,
                 objectNode, contentRow, err, reader.pos);
      }
      ScanExit(parse, headerRow, records, start, rows, items, contentRow, err, reader.pos);
      panicked := false;
    }
  }
}
