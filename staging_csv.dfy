/**
 * The staging store of `busdatagenerator.py`: `save_registers` writes the CSV
 * with `DictWriter(quotechar='|', lineterminator='\n')`; `load_registers`
 * reads it back with a default `DictReader` (quote character `"`), after
 * which it calls `next()` once more and so throws the first data row away.
 */
module StagingCsv {
  import opened Wrappers
  import opened Builtins
  import opened Registers

  /** The staging file on disk: `None` when it does not exist. */
  class StagingFile {
    var content: Option<string>

    constructor (content: Option<string>)
      ensures this.content == content
    {
      this.content := content;
    }
  }

  const FieldNames: seq<string> := ["line", "actual_datetime", "delay_minutes", "stop_id"]

  // ---------------------------------------------------------------------------
  // Writing

  /** Minimal quoting: fields holding the delimiter, the quote character or the line terminator. */
  predicate NeedsQuotes(f: string)
  {
    ',' in f || '|' in f || '\n' in f
  }

  function DoubleBars(f: string): string
  {
    if f == [] then [] else (if f[0] == '|' then "||" else [f[0]]) + DoubleBars(f[1..])
  }

  function QuoteField(f: string): string
  {
    if NeedsQuotes(f) then "|" + DoubleBars(f) + "|" else f
  }

  function QuoteAll(fs: seq<string>): (r: seq<string>)
    ensures |r| == |fs|
  {
    if fs == [] then [] else [QuoteField(fs[0])] + QuoteAll(fs[1..])
  }

  function WriteRow(fs: seq<string>): string
  {
    Join(QuoteAll(fs), ",") + "\n"
  }

  /** `vars(register)` in field-name order, each value as `str()` writes it. */
  function Fields(r: Register): (fs: seq<string>)
    ensures |fs| == 4
  {
    [r.line, r.actualDatetime, IntToString(r.delayMinutes), IntToString(r.stopId)]
  }

  function WriteRows(rs: seq<Register>): string
  {
    if rs == [] then "" else WriteRow(Fields(rs[0])) + WriteRows(rs[1..])
  }

  /** The whole file `save_registers` writes: the header row, then one row per register. */
  function CsvText(rs: seq<Register>): string
  {
    WriteRow(FieldNames) + WriteRows(rs)
  }

  /** `save_registers(registers)`: the staging file is rewritten in full. */
  method SaveRegisters(file: StagingFile, registers: seq<Register>)
    modifies file
    ensures file.content == Some(CsvText(registers))
  {
    file.content := Some(CsvText(registers));
  }

  // ---------------------------------------------------------------------------
  // Reading: Python's csv reader, default dialect, over universal-newline text

  /** Text mode reading turns `\r\n` and a lone `\r` into `\n`. */
  function UniversalNewlines(s: string): string
  {
    if s == [] then []
    else if s[0] == '\r' then "\n" + UniversalNewlines(if |s| > 1 && s[1] == '\n' then s[2..] else s[1..])
    else [s[0]] + UniversalNewlines(s[1..])
  }

  datatype ScanState = StartRecord | StartField | InField | InQuoted | QuoteInQuoted

  /** The reader's configuration between two characters. */
  datatype Scanner = Scanner(st: ScanState, field: string, fields: seq<string>)

  const Initial := Scanner(StartRecord, "", [])

  /** What one character does: the record it completes, if any, and the next configuration. */
  datatype Move = Move(emit: Option<seq<string>>, next: Scanner)

  /**
   * One step of the csv reader's state machine (delimiter `,`, quote `"`,
   * doubled quotes, lenient parsing). A line break ends the record unless it
   * falls inside a quoted field; an empty line is the empty record.
   */
  function Step(c: char, m: Scanner): Move
  {
    var field, fields := m.field, m.fields;
    match m.st
    case StartRecord =>
      if c == '\n' then Move(Some([]), Initial) else StartFieldStep(c, fields)
    case StartField => StartFieldStep(c, fields)
    case InField =>
      if c == '\n' then Move(Some(fields + [field]), Initial)
      else if c == ',' then Move(None, Scanner(StartField, "", fields + [field]))
      else Move(None, Scanner(InField, field + [c], fields))
    case InQuoted =>
      if c == '"' then Move(None, Scanner(QuoteInQuoted, field, fields))
      else Move(None, Scanner(InQuoted, field + [c], fields))
    case QuoteInQuoted =>
      if c == '"' then Move(None, Scanner(InQuoted, field + ['"'], fields))
      else if c == ',' then Move(None, Scanner(StartField, "", fields + [field]))
      else if c == '\n' then Move(Some(fields + [field]), Initial)
      else Move(None, Scanner(InField, field + [c], fields))
  }

  function StartFieldStep(c: char, fields: seq<string>): Move
  {
    if c == '\n' then Move(Some(fields + [""]), Initial)
    else if c == '"' then Move(None, Scanner(InQuoted, "", fields))
    else if c == ',' then Move(None, Scanner(StartField, "", fields + [""]))
    else Move(None, Scanner(InField, [c], fields))
  }

  /** The records read from `s` onwards; at the end of the text a started record is completed. */
  function Scan(s: string, m: Scanner): seq<seq<string>>
    decreases |s|
  {
    if s == [] then (if m.st == StartRecord then [] else [m.fields + [m.field]])
    else
      var mv := Step(s[0], m);
      (if mv.emit.Some? then [mv.emit.value] else []) + Scan(s[1..], mv.next)
  }

  /** The records completed while reading `s` from `m`; a record still open at the end is not. */
  function Emitted(s: string, m: Scanner): seq<seq<string>>
    decreases |s|
  {
    if s == [] then []
    else
      var mv := Step(s[0], m);
      (if mv.emit.Some? then [mv.emit.value] else []) + Emitted(s[1..], mv.next)
  }

  /** The text before its first NUL character. */
  function BeforeNul(s: string): (p: string)
    ensures '\0' !in p && |p| <= |s| && p == s[..|p|]
    ensures |p| < |s| ==> s[|p|] == '\0'
    ensures '\0' !in s ==> p == s
  {
    if s == [] || s[0] == '\0' then [] else [s[0]] + BeforeNul(s[1..])
  }

  datatype LoadError = CsvError | Raised(error: PyError)

  /**
   * What the csv reader yields from a file, lazily: the records, and whether
   * it then raised `csv.Error`. Before CPython 3.11 the reader raises on
   * meeting a NUL character, after yielding every record completed before it.
   */
  datatype Reading = Reading(records: seq<seq<string>>, raised: bool)

  function Read(text: string): (rd: Reading)
    ensures rd.raised <==> '\0' in UniversalNewlines(text)
  {
    var t := UniversalNewlines(text);
    if '\0' in t then Reading(Emitted(BeforeNul(t), Initial), true) else Reading(Scan(t, Initial), false)
  }

  /** The end of a reading: `csv.Error` if the reader raised, otherwise the registers built so far. */
  function Finished(rd: Reading, rs: seq<Register>): (r: Result<seq<Register>, LoadError>)
    ensures r.Err? <==> rd.raised
  {
    if rd.raised then Err(CsvError) else Ok(rs)
  }

  // ---------------------------------------------------------------------------
  // DictReader and Register(**row)

  /** `dict(zip(names, values))`: a later duplicate name overwrites an earlier one. */
  function ZipMap(names: seq<string>, values: seq<string>): (m: map<string, PyValue>)
    requires |names| == |values|
    ensures forall k :: 0 <= k < |names| ==> names[k] in m
    ensures forall x :: x in m ==> x in names
  {
    if names == [] then map[]
    else ZipMap(names[..|names| - 1], values[..|values| - 1])[names[|names| - 1] := PyStr(values[|values| - 1])]
  }

  /** The keyword arguments `Register(**row)` receives, and whether `DictReader` added its `None` rest-key. */
  datatype RowDict = RowDict(kwargs: map<string, PyValue>, restKey: bool)

  function ToDict(names: seq<string>, row: seq<string>): RowDict
  {
    if |names| < |row| then RowDict(ZipMap(names, row[..|names|]), true)
    else if |names| == |row| then RowDict(ZipMap(names, row), false)
    else
      var base := ZipMap(names[..|row|], row);
      RowDict(base + map k | k in names[|row|..] :: PyNone, false)
  }

  /** The keyword arguments are exactly the parameters `names`. */
  predicate SameNames(kwargs: map<string, PyValue>, names: seq<string>)
  {
    (forall n :: n in names ==> n in kwargs) && (forall x :: x in kwargs ==> x in names)
  }

  /**
   * `Register(**row)`: a `None` key, a missing or an unexpected field name is a
   * `TypeError`; otherwise the constructor normalises the values.
   */
  function FromDict(d: RowDict): Result<Register, PyError>
  {
    if d.restKey || !SameNames(d.kwargs, FieldNames) then Err(TypeError)
    else NewRegister(d.kwargs["line"], d.kwargs["actual_datetime"], d.kwargs["delay_minutes"], d.kwargs["stop_id"])
  }

  /** The rows `DictReader` yields after its header: empty records are skipped. */
  function NonEmpty(rows: seq<seq<string>>): (r: seq<seq<string>>)
    ensures |r| <= |rows|
    ensures forall k :: 0 <= k < |r| ==> r[k] != []
  {
    if rows == [] then []
    else (if rows[0] == [] then [] else [rows[0]]) + NonEmpty(rows[1..])
  }

  /** Exactly the non-empty records are kept. */
  lemma {:induction false} NonEmptyMembers(rows: seq<seq<string>>)
    ensures forall x :: x in NonEmpty(rows) <==> x in rows && x != []
  {
    if rows != [] {
      NonEmptyMembers(rows[1..]);
      assert rows == [rows[0]] + rows[1..];
    }
  }

  /** Skipping empty records keeps the order of the others: it distributes over concatenation. */
  lemma {:induction false} NonEmptyAppend(a: seq<seq<string>>, b: seq<seq<string>>)
    ensures NonEmpty(a + b) == NonEmpty(a) + NonEmpty(b)
  {
    if a == [] {
      assert a + b == b;
    } else {
      assert (a + b)[1..] == a[1..] + b;
      NonEmptyAppend(a[1..], b);
    }
  }

  /** One row under the header `names`, as `DictReader` yields it and `Register(**row)` takes it. */
  function ConvertRow(names: seq<string>, row: seq<string>): Result<Register, PyError>
  {
    FromDict(ToDict(names, row))
  }

  /** Converting the rows in order; the first row that raises decides the result. */
  function ConvertRows(names: seq<string>, rows: seq<seq<string>>): (r: Result<seq<Register>, PyError>)
    ensures r.Ok? ==> |r.value| == |rows|
  {
    if rows == [] then Ok([])
    else
      var done :- ConvertRows(names, rows[..|rows| - 1]);
      var last :- ConvertRow(names, rows[|rows| - 1]);
      Ok(done + [last])
  }

  /** The conversion succeeds exactly when every row converts. */
  lemma ConvertRowsSucceeds(names: seq<string>, rows: seq<seq<string>>)
    ensures ConvertRows(names, rows).Ok? <==> forall k :: 0 <= k < |rows| ==> ConvertRow(names, rows[k]).Ok?
  {
    if ConvertRows(names, rows).Ok? {
      ConvertRowsEach(names, rows);
    } else {
      ConvertRowsFirstError(names, rows);
    }
  }

  /**
   * A conversion that raises raises the error of some row, and every row
   * before that one converts.
   */
  lemma {:induction false} ConvertRowsFirstError(names: seq<string>, rows: seq<seq<string>>)
    requires ConvertRows(names, rows).Err?
    ensures exists k :: 0 <= k < |rows| && ConvertRows(names, rows[..k]).Ok?
                        && ConvertRow(names, rows[k]) == Err(ConvertRows(names, rows).error)
  {
    var n := |rows| - 1;
    var front := rows[..n];
    if ConvertRows(names, front).Err? {
      assert ConvertRows(names, rows) == ConvertRows(names, front);
      ConvertRowsFirstError(names, front);
      var k :| 0 <= k < |front| && ConvertRows(names, front[..k]).Ok?
               && ConvertRow(names, front[k]) == Err(ConvertRows(names, front).error);
      assert front[..k] == rows[..k] && front[k] == rows[k];
    } else {
      assert ConvertRow(names, rows[n]) == Err(ConvertRows(names, rows).error);
    }
  }

  /** When the conversion succeeds, the k-th register is the k-th row's. */
  lemma {:induction false} ConvertRowsEach(names: seq<string>, rows: seq<seq<string>>)
    requires ConvertRows(names, rows).Ok?
    ensures forall k :: 0 <= k < |rows| ==> ConvertRow(names, rows[k]) == Ok(ConvertRows(names, rows).value[k])
  {
    if rows != [] {
      var n := |rows| - 1;
      ConvertRowsOkStep(names, rows);
      ConvertRowsEach(names, rows[..n]);
      EachValueStep(names, rows, rows[..n], ConvertRows(names, rows[..n]).value, ConvertRow(names, rows[n]).value);
    }
  }

  /** A successful conversion of a non-empty list is its front's followed by its last row's register. */
  lemma ConvertRowsOkStep(names: seq<string>, rows: seq<seq<string>>)
    requires rows != [] && ConvertRows(names, rows).Ok?
    ensures ConvertRows(names, rows[..|rows| - 1]).Ok? && ConvertRow(names, rows[|rows| - 1]).Ok?
    ensures ConvertRows(names, rows).value
            == ConvertRows(names, rows[..|rows| - 1]).value + [ConvertRow(names, rows[|rows| - 1]).value]
  {
  }

  lemma EachValueStep(names: seq<string>, rows: seq<seq<string>>, front: seq<seq<string>>,
                      done: seq<Register>, last: Register)
    requires rows != [] && front == rows[..|rows| - 1] && |done| == |front|
    requires forall k :: 0 <= k < |front| ==> ConvertRow(names, front[k]) == Ok(done[k])
    requires ConvertRow(names, rows[|rows| - 1]) == Ok(last)
    ensures forall k :: 0 <= k < |rows| ==> ConvertRow(names, rows[k]) == Ok((done + [last])[k])
  {
    forall k | 0 <= k < |rows|
      ensures ConvertRow(names, rows[k]) == Ok((done + [last])[k])
    {
      if k < |front| {
        assert front[k] == rows[k];
        assert (done + [last])[k] == done[k];
      }
    }
  }

  /**
   * What `load_registers` returns: `[]` for a missing file, a file with no
   * header or a header with no data row under it; otherwise every data row but
   * the first, which the extra `next()` consumed. The rows are converted as the
   * reader yields them, so a row that raises before the reader meets a NUL
   * decides the error; after them, the reader's `csv.Error` does.
   */
  function LoadedRegisters(content: Option<string>): Result<seq<Register>, LoadError>
  {
    if content.None? then Ok([])
    else
      var rd := Read(content.value);
      var records := rd.records;
      if records == [] || NonEmpty(records[1..]) == [] then Finished(rd, [])
      else
        match ConvertRows(records[0], NonEmpty(records[1..])[1..])
        case Ok(rs) => Finished(rd, rs)
        case Err(e) => Err(Raised(e))
  }

  /** `load_registers()`: the header, the skipped first row, then the conversion loop. */
  method LoadRegisters(file: StagingFile) returns (r: Result<seq<Register>, LoadError>)
    ensures r == LoadedRegisters(file.content)
  {
    if file.content.None? {
      return Ok([]);
    }
    var reading := Read(file.content.value);
    var records := reading.records;
    if records == [] {
      return Finished(reading, []);
    }
    var rows := NonEmpty(records[1..]);
    if rows == [] {
      return Finished(reading, []);
    }
    var converted := AppendRegisters(records[0], rows[1..]);
    if converted.Err? {
      return Err(Raised(converted.error));
    }
    r := Finished(reading, converted.value);
  }

  /** The loop of `load_registers` that appends one register per row, stopping at the first that raises. */
  method AppendRegisters(names: seq<string>, data: seq<seq<string>>) returns (r: Result<seq<Register>, PyError>)
    ensures r == ConvertRows(names, data)
  {
    var output: seq<Register> := [];
    var i := 0;
    while i < |data|
      invariant 0 <= i <= |data|
      invariant ConvertRows(names, data[..i]) == Ok(output)
    {
      assert data[..i + 1][..i] == data[..i];
      var reg := ConvertRow(names, data[i]);
      if reg.Err? {
        ConvertRowsFailure(names, data, i + 1);
        return Err(reg.error);
      }
      output := output + [reg.value];
      i := i + 1;
    }
    assert data[..i] == data;
    return Ok(output);
  }

  /** Once a prefix of the rows raises, so does the whole conversion, with the same error. */
  lemma {:induction false} ConvertRowsFailure(names: seq<string>, rows: seq<seq<string>>, j: nat)
    requires j <= |rows| && ConvertRows(names, rows[..j]).Err?
    ensures ConvertRows(names, rows) == ConvertRows(names, rows[..j])
    decreases |rows| - j
  {
    if j < |rows| {
      assert rows[..j + 1][..j] == rows[..j];
      ConvertRowsFailure(names, rows, j + 1);
    } else {
      assert rows[..j] == rows;
    }
  }

  /** The same reading without the extra `next()`: every data row is converted. */
  function LoadedRegistersIntended(content: Option<string>): Result<seq<Register>, LoadError>
  {
    if content.None? then Ok([])
    else
      var rd := Read(content.value);
      var records := rd.records;
      if records == [] then Finished(rd, [])
      else
        match ConvertRows(records[0], NonEmpty(records[1..]))
        case Ok(rs) => Finished(rd, rs)
        case Err(e) => Err(Raised(e))
  }

  // ---------------------------------------------------------------------------
  // Round trip

  /** Text the writer leaves unquoted and the reader splits nowhere. */
  predicate Plain(f: string)
  {
    forall k :: 0 <= k < |f| ==> PlainChar(f[k])
  }

  predicate PlainChar(c: char)
  {
    c != ',' && c != '|' && c != '"' && c != '\n' && c != '\r' && c != '\0'
  }

  predicate PlainRegister(r: Register)
  {
    Plain(r.line) && Plain(r.actualDatetime)
  }

  predicate PlainFields(fs: seq<string>)
  {
    forall k :: 0 <= k < |fs| ==> Plain(fs[k])
  }

  predicate AllPlain(rs: seq<Register>)
  {
    forall k :: 0 <= k < |rs| ==> PlainRegister(rs[k])
  }

  lemma IntToStringPlain(i: int)
    ensures Plain(IntToString(i))
  {
    var digits := NatToString(if i < 0 then -i else i);
    assert forall k :: 0 <= k < |digits| ==> IsDigit(digits[k]);
  }

  lemma {:induction false} QuoteAllPlain(fs: seq<string>)
    requires PlainFields(fs)
    ensures QuoteAll(fs) == fs
  {
    if fs != [] {
      assert !NeedsQuotes(fs[0]);
      QuoteAllPlain(fs[1..]);
    }
  }

  lemma {:induction false} ScanPlainField(f: string, rest: string, acc: string, fields: seq<string>)
    requires Plain(f)
    ensures Scan(f + rest, Scanner(InField, acc, fields)) == Scan(rest, Scanner(InField, acc + f, fields))
  {
    if f != [] {
      var s := f + rest;
      assert s[0] == f[0] && s[1..] == f[1..] + rest;
      var mv := Step(f[0], Scanner(InField, acc, fields));
      assert mv == Move(None, Scanner(InField, acc + [f[0]], fields));
      assert Scan(s, Scanner(InField, acc, fields)) == Scan(s[1..], mv.next);
      ScanPlainField(f[1..], rest, acc + [f[0]], fields);
      assert acc + [f[0]] + f[1..] == acc + f;
    } else {
      assert f + rest == rest && acc + f == acc;
    }
  }

  /** Reading a plain field from the start of a field leaves it as the current field. */
  lemma ScanFirstField(f: string, tail: string, st: ScanState, acc: seq<string>)
    requires Plain(f) && (st == StartField || st == StartRecord)
    ensures Scan(f + tail, Scanner(st, "", acc)) == Scan(tail, Scanner(if f == [] then st else InField, f, acc))
  {
    if f != [] {
      var s := f + tail;
      assert s[0] == f[0] && s[1..] == f[1..] + tail;
      var mv := Step(f[0], Scanner(st, "", acc));
      assert mv == Move(None, Scanner(InField, [f[0]], acc));
      assert Scan(s, Scanner(st, "", acc)) == Scan(s[1..], mv.next);
      ScanPlainField(f[1..], tail, [f[0]], acc);
      assert [f[0]] + f[1..] == f;
    } else {
      assert f + tail == tail;
    }
  }

  /** Reading the last field of a written line and its line break completes the record. */
  lemma ScanLastField(f: string, rest: string, st: ScanState, acc: seq<string>)
    requires Plain(f) && st == StartField
    ensures Scan(f + "\n" + rest, Scanner(st, "", acc)) == [acc + [f]] + Scan(rest, Initial)
  {
    var tail := "\n" + rest;
    assert f + "\n" + rest == f + tail;
    ScanFirstField(f, tail, st, acc);
    var s1 := if f == [] then st else InField;
    assert tail[0] == '\n' && tail[1..] == rest;
    assert Step('\n', Scanner(s1, f, acc)) == Move(Some(acc + [f]), Initial);
  }

  /** Reading a field followed by the delimiter moves it into the record. */
  lemma ScanInnerField(f: string, more: string, st: ScanState, acc: seq<string>)
    requires Plain(f) && (st == StartField || st == StartRecord)
    ensures Scan(f + "," + more, Scanner(st, "", acc)) == Scan(more, Scanner(StartField, "", acc + [f]))
  {
    var tail := "," + more;
    assert f + "," + more == f + tail;
    ScanFirstField(f, tail, st, acc);
    var s1 := if f == [] then st else InField;
    assert tail[0] == ',' && tail[1..] == more;
    assert Step(',', Scanner(s1, f, acc)) == Move(None, Scanner(StartField, "", acc + [f]));
  }

  /** Reading one written line of plain fields from the start of a field. */
  lemma {:induction false} ScanLine(fs: seq<string>, rest: string, st: ScanState, acc: seq<string>)
    requires |fs| >= 1 && PlainFields(fs)
    requires st == StartField || (st == StartRecord && acc == [] && |fs| >= 2)
    ensures Scan(Join(fs, ",") + "\n" + rest, Scanner(st, "", acc)) == [acc + fs] + Scan(rest, Initial)
    decreases |fs|
  {
    if |fs| == 1 {
      assert Join(fs, ",") == fs[0] && fs == [fs[0]];
      ScanLastField(fs[0], rest, st, acc);
    } else {
      var more := Join(fs[1..], ",") + "\n" + rest;
      assert Join(fs, ",") + "\n" + rest == fs[0] + "," + more;
      ScanInnerField(fs[0], more, st, acc);
      ScanLine(fs[1..], rest, StartField, acc + [fs[0]]);
      assert acc + [fs[0]] + fs[1..] == acc + fs;
    }
  }

  function AllFields(rs: seq<Register>): (rows: seq<seq<string>>)
    ensures |rows| == |rs|
  {
    if rs == [] then [] else [Fields(rs[0])] + AllFields(rs[1..])
  }

  lemma FieldsPlain(r: Register)
    requires PlainRegister(r)
    ensures PlainFields(Fields(r)) && QuoteAll(Fields(r)) == Fields(r)
    ensures WriteRow(Fields(r)) == Join(Fields(r), ",") + "\n"
  {
    IntToStringPlain(r.delayMinutes);
    IntToStringPlain(r.stopId);
    QuoteAllPlain(Fields(r));
  }

  lemma {:induction false} ScanRows(rs: seq<Register>)
    requires AllPlain(rs)
    ensures Scan(WriteRows(rs), Initial) == AllFields(rs)
  {
    if rs != [] {
      FieldsPlain(rs[0]);
      var rest := WriteRows(rs[1..]);
      assert WriteRows(rs) == Join(Fields(rs[0]), ",") + "\n" + rest;
      ScanLine(Fields(rs[0]), rest, StartRecord, []);
      assert [] + Fields(rs[0]) == Fields(rs[0]);
      ScanRows(rs[1..]);
    }
  }

  /** The written text holds no carriage return and no NUL character. */
  predicate Clean(s: string)
  {
    '\r' !in s && '\0' !in s
  }

  lemma {:induction false} JoinClean(fs: seq<string>)
    requires PlainFields(fs)
    ensures Clean(Join(fs, ","))
  {
    if |fs| > 1 {
      JoinClean(fs[1..]);
      assert Join(fs, ",") == fs[0] + "," + Join(fs[1..], ",");
    } else if |fs| == 1 {
      assert Join(fs, ",") == fs[0];
    }
  }

  lemma {:induction false} RowsClean(rs: seq<Register>)
    requires AllPlain(rs)
    ensures Clean(WriteRows(rs))
  {
    if rs != [] {
      FieldsPlain(rs[0]);
      JoinClean(Fields(rs[0]));
      RowsClean(rs[1..]);
      assert WriteRows(rs) == Join(Fields(rs[0]), ",") + "\n" + WriteRows(rs[1..]);
    }
  }

  lemma HeaderPlain()
    ensures PlainFields(FieldNames) && WriteRow(FieldNames) == Join(FieldNames, ",") + "\n"
  {
    assert Plain(FieldNames[0]) && Plain(FieldNames[1]);
    assert Plain(FieldNames[2]) && Plain(FieldNames[3]);
    QuoteAllPlain(FieldNames);
  }

  lemma {:induction false} UniversalNewlinesUnchanged(s: string)
    requires '\r' !in s
    ensures UniversalNewlines(s) == s
  {
    if s != [] {
      UniversalNewlinesUnchanged(s[1..]);
    }
  }

  /** The records read back from a saved file: the header, then one record per register. */
  lemma RecordsOfCsvText(rs: seq<Register>)
    requires AllPlain(rs)
    ensures Read(CsvText(rs)) == Reading([FieldNames] + AllFields(rs), false)
  {
    HeaderPlain();
    RowsClean(rs);
    var text := CsvText(rs);
    assert text == WriteRow(FieldNames) + WriteRows(rs);
    JoinClean(FieldNames);
    assert Clean(text);
    UniversalNewlinesUnchanged(text);
    ScanLine(FieldNames, WriteRows(rs), StartRecord, []);
    assert [] + FieldNames == FieldNames;
    ScanRows(rs);
  }

  lemma {:induction false} NonEmptyFields(rs: seq<Register>)
    ensures NonEmpty(AllFields(rs)) == AllFields(rs)
  {
    if rs != [] {
      NonEmptyFields(rs[1..]);
    }
  }

  predicate Distinct(names: seq<string>)
  {
    forall i, j :: 0 <= i < j < |names| ==> names[i] != names[j]
  }

  /** With distinct names, each name maps to the value at its own position. */
  lemma {:induction false} ZipMapAt(names: seq<string>, values: seq<string>, k: nat)
    requires |names| == |values| && Distinct(names) && k < |names|
    ensures ZipMap(names, values)[names[k]] == PyStr(values[k])
  {
    var n := |names| - 1;
    if k < n {
      assert names[k] != names[n];
      ZipMapAt(names[..n], values[..n], k);
    }
  }

  lemma FromDictOfFields(r: Register)
    ensures ConvertRow(FieldNames, Fields(r)) == Ok(r)
  {
    var fs := Fields(r);
    var kw := ZipMap(FieldNames, fs);
    assert ToDict(FieldNames, fs) == RowDict(kw, false);
    assert Distinct(FieldNames);
    ZipMapAt(FieldNames, fs, 0);
    ZipMapAt(FieldNames, fs, 1);
    ZipMapAt(FieldNames, fs, 2);
    ZipMapAt(FieldNames, fs, 3);
    assert SameNames(kw, FieldNames);
    NewRegisterFromText(r);
  }

  lemma {:induction false} ConvertAllFields(rs: seq<Register>)
    ensures ConvertRows(FieldNames, AllFields(rs)) == Ok(rs)
    decreases |rs|
  {
    if rs != [] {
      var n := |rs| - 1;
      assert rs[..n] + [rs[n]] == rs;
      var rows := AllFields(rs);
      AllFieldsPrefix(rs);
      assert rows[..|rows| - 1] == AllFields(rs[..n]);
      ConvertAllFields(rs[..n]);
      FromDictOfFields(rs[n]);
      assert ConvertRow(FieldNames, rows[|rows| - 1]) == Ok(rs[n]);
    }
  }

  lemma {:induction false} AllFieldsPrefix(rs: seq<Register>)
    requires rs != []
    ensures AllFields(rs)[..|rs| - 1] == AllFields(rs[..|rs| - 1])
    ensures AllFields(rs)[|rs| - 1] == Fields(rs[|rs| - 1])
  {
    if |rs| > 1 {
      AllFieldsPrefix(rs[1..]);
      assert rs[1..][..|rs| - 2] == rs[..|rs| - 1][1..];
    }
  }

  /**
   * As written, loading what `save_registers` wrote loses the first register:
   * the result is every register but the first.
   */
  lemma LoadAfterSaveDropsFirst(rs: seq<Register>)
    requires AllPlain(rs)
    ensures LoadedRegisters(Some(CsvText(rs))) == Ok(if rs == [] then [] else rs[1..])
  {
    if rs == [] {
      LoadAfterSaveHeaderOnly();
    } else {
      LoadAfterSaveRest(rs);
    }
  }

  /** A file holding only the header loads as no registers. */
  lemma LoadAfterSaveHeaderOnly()
    ensures LoadedRegisters(Some(CsvText([]))) == Ok([])
  {
    RecordsOfCsvText([]);
    var records := [FieldNames] + AllFields([]);
    assert records[1..] == [];
  }

  lemma LoadAfterSaveRest(rs: seq<Register>)
    requires AllPlain(rs) && rs != []
    ensures LoadedRegisters(Some(CsvText(rs))) == Ok(rs[1..])
  {
    RecordsOfCsvText(rs);
    var records := [FieldNames] + AllFields(rs);
    assert records[0] == FieldNames && records[1..] == AllFields(rs);
    ConvertFieldsAfterFirst(rs);
  }

  /** The rows under the header of a saved list, less the first, convert to the rest of the list. */
  lemma ConvertFieldsAfterFirst(rs: seq<Register>)
    requires rs != []
    ensures NonEmpty(AllFields(rs)) != []
    ensures ConvertRows(FieldNames, NonEmpty(AllFields(rs))[1..]) == Ok(rs[1..])
  {
    NonEmptyFields(rs);
    assert AllFields(rs)[1..] == AllFields(rs[1..]);
    ConvertAllFields(rs[1..]);
  }

  /** A single saved register never comes back. */
  lemma LoadAfterSaveLosesOnlyRegister(r: Register)
    requires PlainRegister(r)
    ensures LoadedRegisters(Some(CsvText([r]))) == Ok([])
  {
    LoadAfterSaveDropsFirst([r]);
  }

  /** Without the extra `next()`, loading inverts saving. */
  lemma LoadIntendedAfterSave(rs: seq<Register>)
    requires AllPlain(rs)
    ensures LoadedRegistersIntended(Some(CsvText(rs))) == Ok(rs)
  {
    RecordsOfCsvText(rs);
    var records := [FieldNames] + AllFields(rs);
    assert records[1..] == AllFields(rs);
    NonEmptyFields(rs);
    ConvertAllFields(rs);
  }

  /** A NUL before the header is complete makes the load raise `csv.Error`. */
  lemma LoadNulInHeader(tail: string)
    ensures LoadedRegisters(Some("\0" + tail)) == Err(CsvError)
  {
    var text := "\0" + tail;
    assert text[0] == '\0' && text[1..] == tail;
    assert UniversalNewlines(text) == "\0" + UniversalNewlines(tail);
    assert BeforeNul(UniversalNewlines(text)) == [];
  }

  /** A missing file, an empty file and a header-only file all load as no registers. */
  lemma LoadMissingOrEmpty()
    ensures LoadedRegisters(None) == Ok([])
    ensures LoadedRegisters(Some("")) == Ok([])
    ensures LoadedRegisters(Some(CsvText([]))) == Ok([])
  {
    assert Read("") == Reading([], false);
    LoadAfterSaveHeaderOnly();
  }
}
