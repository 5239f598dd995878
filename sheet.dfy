/** Conversion of a sheet exported as CSV text into records, and access to a record's fields.
    The same conversion appears three times in the source (two sheets in the dashboard,
    one in the daily report); it is modelled once here. */
module Sheet {
  import opened Wrappers
  import opened Text
  import opened Seqs

  /** A record: column header to cell text, as built by `Object.fromEntries`. */
  type Row = map<string, string>

  /** The column both components key bookings by. */
  const BookingNumber: string := "Booking Number"

  /** JavaScript truthiness of a string that may be `undefined`. */
  predicate Truthy(v: Option<string>)
  {
    v.Some? && v.value != ""
  }

  /** `row[key]`, which is `undefined` for a column the row does not have. */
  function Lookup(row: Row, key: string): Option<string>
  {
    if key in row then Some(row[key]) else None
  }

  /** `row[key] || ""`: a missing column reads as the empty string. */
  function FieldOr(row: Row, key: string): string
  {
    if key in row then row[key] else ""
  }

  /** `cell.trim() === ""`. */
  predicate IsBlank(cell: string)
  {
    Trim(cell) == ""
  }

  /** `cells.some((cell) => cell.trim() !== "")`. */
  predicate HasContent(cells: seq<string>)
  {
    exists i | 0 <= i < |cells| :: !IsBlank(cells[i])
  }

  /** `text.split("\n").map((row) => row.split(","))`: the cells of every line. No cell holds
      a separator, and joining the cells of each line with ',' and the lines with '\n' gives
      the text back, which fixes the cells uniquely. */
  function Cells(text: string): (lines: seq<seq<string>>)
    ensures |lines| == |Split(text, '\n')| >= 1
    ensures forall i | 0 <= i < |lines| :: lines[i] == Split(Split(text, '\n')[i], ',')
    ensures forall i | 0 <= i < |lines| :: |lines[i]| >= 1 && NoSeparators(lines[i])
    ensures Join(JoinEach(lines, ','), '\n') == text
  {
    var texts := Split(text, '\n');
    var lines := seq(|texts|, i requires 0 <= i < |texts| => Split(texts[i], ','));
    forall i | 0 <= i < |lines| ensures NoSeparators(lines[i]) {
      SplitKeepsAbsent(texts[i], ',', '\n');
    }
    assert JoinEach(lines, ',') == texts;
    lines
  }

  /** No cell holds ',' or '\n'. */
  predicate NoSeparators(cells: seq<string>)
  {
    forall j | 0 <= j < |cells| :: ',' !in cells[j] && '\n' !in cells[j]
  }

  /** `lines.map((cells) => cells.join(sep))`. */
  function JoinEach(lines: seq<seq<string>>, sep: char): (texts: seq<string>)
    requires forall i | 0 <= i < |lines| :: |lines[i]| >= 1
    ensures |texts| == |lines|
  {
    seq(|lines|, i requires 0 <= i < |lines| => Join(lines[i], sep))
  }

  /** `xs.map((x) => x?.trim())`. */
  function TrimAll(xs: seq<string>): (r: seq<string>)
    ensures |r| == |xs|
  {
    seq(|xs|, i requires 0 <= i < |xs| => Trim(xs[i]))
  }

  /** The keys of a record built from `headers`: every header, trimmed. */
  function HeaderKeys(headers: seq<string>): set<string>
  {
    set k | k in TrimAll(headers)
  }

  /** No later entry has the key of entry `i`, so entry `i` sets that key last. */
  predicate SetsKeyLast(keys: seq<string>, i: nat)
    requires i < |keys|
  {
    forall j | i < j < |keys| :: keys[j] != keys[i]
  }

  /** `Object.fromEntries` over parallel keys and values: later entries overwrite earlier ones. */
  function FromEntries(keys: seq<string>, values: seq<string>): (r: Row)
    requires |values| == |keys|
    ensures r.Keys == set k | k in keys
    ensures forall i | 0 <= i < |keys| && SetsKeyLast(keys, i) :: r[keys[i]] == values[i]
    decreases |keys|
  {
    if keys == [] then map[]
    else
      var n := |keys| - 1;
      TakeOneMore(keys, n);
      assert keys[..n + 1] == keys;
      FromEntriesStep(keys[..n], values[..n], keys[n], values[n], FromEntries(keys[..n], values[..n]))
  }

  /** One more entry `last: value` on top of the object built from the earlier entries. */
  function FromEntriesStep(keys: seq<string>, values: seq<string>, last: string, value: string, prev: Row): (r: Row)
    requires |values| == |keys|
    requires prev.Keys == set k | k in keys
    requires forall i | 0 <= i < |keys| && SetsKeyLast(keys, i) :: prev[keys[i]] == values[i]
    ensures r.Keys == set k | k in keys + [last]
    ensures forall i | 0 <= i < |keys| + 1 && SetsKeyLast(keys + [last], i) :: r[(keys + [last])[i]] == (values + [value])[i]
  {
    var all := keys + [last];
    forall i | 0 <= i < |keys| && SetsKeyLast(all, i)
      ensures SetsKeyLast(keys, i) && all[i] != last
    {
      assert all[|keys|] == last;
      forall j | i < j < |keys| ensures keys[j] != keys[i] {
        assert all[j] == keys[j];
      }
    }
    prev[last := value]
  }

  /** `Object.fromEntries(cells.map((cell, i) => [headers[i]?.trim(), cell?.trim()]))`:
      every trimmed header maps to the trimmed cell at the same index; when two headers
      trim to the same key, the later one wins. */
  function ToRecord(headers: seq<string>, cells: seq<string>): (r: Row)
    requires |cells| == |headers|
    ensures r.Keys == HeaderKeys(headers)
    ensures forall i | 0 <= i < |headers| && SetsKeyLast(TrimAll(headers), i) :: r[TrimAll(headers)[i]] == TrimAll(cells)[i]
  {
    FromEntries(TrimAll(headers), TrimAll(cells))
  }

  /** A line after the header becomes a record when it has as many cells as the header
      and at least one non-blank cell. */
  predicate IsRecordLine(headers: seq<string>, cells: seq<string>)
  {
    |cells| == |headers| && HasContent(cells)
  }

  /** The lines that become records, in order. */
  function RecordLines(headers: seq<string>, lines: seq<seq<string>>): seq<seq<string>>
  {
    Filter(lines, cells => IsRecordLine(headers, cells))
  }

  /** The records built from the lines that follow the header, in order: the `i`-th record
      is the `i`-th record line read against the header. */
  function Records(headers: seq<string>, lines: seq<seq<string>>): (rows: seq<Row>)
    ensures |rows| == |RecordLines(headers, lines)| == Count(lines, cells => IsRecordLine(headers, cells))
    ensures forall i | 0 <= i < |rows| ::
      |RecordLines(headers, lines)[i]| == |headers| && rows[i] == ToRecord(headers, RecordLines(headers, lines)[i])
    ensures forall i | 0 <= i < |rows| :: rows[i].Keys == HeaderKeys(headers)
  {
    ReadAll(headers, RecordLines(headers, lines))
  }

  /** Every line of `kept`, read against the header. */
  function ReadAll(headers: seq<string>, kept: seq<seq<string>>): (rows: seq<Row>)
    requires forall i | 0 <= i < |kept| :: |kept[i]| == |headers|
    ensures |rows| == |kept|
    ensures forall i | 0 <= i < |rows| :: rows[i] == ToRecord(headers, kept[i])
  {
    seq(|kept|, i requires 0 <= i < |kept| => ToRecord(headers, kept[i]))
  }

  /** Reading one more line appends its record. */
  lemma ReadAllSnoc(headers: seq<string>, kept: seq<seq<string>>, cells: seq<string>)
    requires forall i | 0 <= i < |kept| :: |kept[i]| == |headers|
    requires |cells| == |headers|
    ensures ReadAll(headers, kept + [cells]) == ReadAll(headers, kept) + [ToRecord(headers, cells)]
  {
    LastSplit(kept, cells);
  }

  /** One more line is kept at the end exactly when it is a record line. */
  lemma RecordLinesSnoc(headers: seq<string>, lines: seq<seq<string>>, cells: seq<string>)
    ensures RecordLines(headers, lines + [cells]) ==
            RecordLines(headers, lines) + (if IsRecordLine(headers, cells) then [cells] else [])
  {
    LastSplit(lines, cells);
  }

  /** One more line adds its record at the end when it is a record line, and nothing otherwise. */
  lemma RecordsSnoc(headers: seq<string>, lines: seq<seq<string>>, cells: seq<string>)
    ensures Records(headers, lines + [cells]) ==
            Records(headers, lines) + (if IsRecordLine(headers, cells) then [ToRecord(headers, cells)] else [])
  {
    RecordLinesSnoc(headers, lines, cells);
    var before := RecordLines(headers, lines);
    if IsRecordLine(headers, cells) {
      ReadAllSnoc(headers, before, cells);
    } else {
      assert before + [] == before;
    }
  }

  /** Why a sheet yields no records at all. */
  datatype ParseError =
    /** No line has a non-blank cell: `headers` is undefined and reading its length throws. */
    NoHeaderRow

  /** The records of a sheet: the header is the first line with a non-blank cell,
      and every later record line becomes a record keyed by the header. */
  function ParseSheet(text: string): (r: Result<seq<Row>, ParseError>)
    ensures r.Failure? <==> forall i | 0 <= i < |Cells(text)| :: !HasContent(Cells(text)[i])
  {
    var lines := Cells(text);
    match FirstIndex(lines, HasContent)
    case None => Failure(NoHeaderRow)
    case Some(h) => Success(Records(lines[h], lines[h + 1..]))
  }

  /** The header is the first line with a non-blank cell, and only the lines after it are read. */
  lemma ParseSheetHeader(text: string, h: nat)
    requires h < |Cells(text)| && HasContent(Cells(text)[h])
    requires forall i | 0 <= i < h :: !HasContent(Cells(text)[i])
    ensures ParseSheet(text) == Success(Records(Cells(text)[h], Cells(text)[h + 1..]))
  {
    FirstIndexIs(Cells(text), HasContent, h);
  }

  /** Every record of a parsed sheet has the same columns, those of the header, and at
      least one of them. */
  lemma ParsedRecordsHaveColumns(text: string, rows: seq<Row>)
    requires ParseSheet(text) == Success(rows)
    ensures forall i, j | 0 <= i < |rows| && 0 <= j < |rows| :: rows[i].Keys == rows[j].Keys
    ensures forall i | 0 <= i < |rows| :: rows[i] != map[]
  {
    var lines := Cells(text);
    var h := FirstIndex(lines, HasContent).value;
    var headers, rest := lines[h], lines[h + 1..];
    assert rows == Records(headers, rest);
    RecordsHaveColumns(headers, rest);
    SharedColumns(rows, HeaderKeys(headers));
  }

  /** Records that all have the same non-empty key set. */
  lemma SharedColumns(rows: seq<Row>, keys: set<string>)
    requires forall i | 0 <= i < |rows| :: rows[i].Keys == keys && rows[i] != map[]
    ensures forall i, j | 0 <= i < |rows| && 0 <= j < |rows| :: rows[i].Keys == rows[j].Keys
    ensures forall i | 0 <= i < |rows| :: rows[i] != map[]
  {
  }

  /** Records built from a header of at least one cell have that header's keys, so at least one. */
  lemma RecordsHaveColumns(headers: seq<string>, lines: seq<seq<string>>)
    requires |headers| >= 1
    ensures forall i | 0 <= i < |Records(headers, lines)| ::
      Records(headers, lines)[i].Keys == HeaderKeys(headers) && Records(headers, lines)[i] != map[]
  {
    var rows := Records(headers, lines);
    assert TrimAll(headers)[0] in HeaderKeys(headers);
    forall i | 0 <= i < |rows|
      ensures rows[i].Keys == HeaderKeys(headers) && rows[i] != map[]
    {
      assert TrimAll(headers)[0] in rows[i].Keys;
    }
  }
}
