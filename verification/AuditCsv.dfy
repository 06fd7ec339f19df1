/**
  The CSV export of audit logs, and a reader of the CSV format of section 2 of RFC 4180 (with a
  line feed as record separator, as the export writes it) that recovers what was exported.
 */
module AuditCsv {
  import opened Wrappers

  /** `createdAt` is the ISO string, `details` the JSON text of a truthy details value. */
  datatype AuditLog = AuditLog(
    id: string,
    createdAt: string,
    category: string,
    action: string,
    userEmail: Option<string>,
    targetType: Option<string>,
    targetId: Option<string>,
    ipAddress: Option<string>,
    details: Option<string>)

  const BOM: char := '\U{FEFF}'

  const SYSTEM_USER := "システム"

  const HEADERS: seq<string> := [
    "ID", "日時", "カテゴリ", "アクション", "ユーザー", "対象タイプ", "対象ID", "IPアドレス", "詳細"
  ]

  // ----- the printer -----

  /** `value || fallback` */
  function Or(value: Option<string>, fallback: string): string {
    if value.None? || value.value == "" then fallback else value.value
  }

  function DoubleQuotes(s: string): string {
    if s == "" then ""
    else (if s[0] == '"' then "\"\"" else [s[0]]) + DoubleQuotes(s[1..])
  }

  predicate NeedsQuotes(s: string) {
    '"' in s || ',' in s || '\n' in s || '\r' in s
  }

  function EscapeCSV(value: Option<string>): string {
    match value
    case None => ""
    case Some(str) => if NeedsQuotes(str) then "\"" + DoubleQuotes(str) + "\"" else str
  }

  function Join(parts: seq<string>, separator: string): string {
    if parts == [] then ""
    else if |parts| == 1 then parts[0]
    else parts[0] + separator + Join(parts[1..], separator)
  }

  /** The nine values of a row, before escaping. */
  function Fields(log: AuditLog): (fields: seq<string>)
    ensures |fields| == |HEADERS|
  {
    [log.id, log.createdAt, log.category, log.action, Or(log.userEmail, SYSTEM_USER),
     Or(log.targetType, ""), Or(log.targetId, ""), Or(log.ipAddress, ""), Or(log.details, "")]
  }

  function Escaped(fields: seq<string>): (e: seq<string>)
    ensures |e| == |fields| && forall i :: 0 <= i < |fields| ==> e[i] == EscapeCSV(Some(fields[i]))
  {
    seq(|fields|, i requires 0 <= i < |fields| => EscapeCSV(Some(fields[i])))
  }

  function FormatRow(log: AuditLog): string {
    Join(Escaped(Fields(log)), ",")
  }

  function FormatRows(logs: seq<AuditLog>): (rows: seq<string>)
    ensures |rows| == |logs| && forall i :: 0 <= i < |logs| ==> rows[i] == FormatRow(logs[i])
  {
    seq(|logs|, i requires 0 <= i < |logs| => FormatRow(logs[i]))
  }

  function FormatTable(headers: seq<string>, logs: seq<AuditLog>): string {
    [BOM] + Join(headers, ",") + "\n" + Join(FormatRows(logs), "\n")
  }

  function FormatAsCSV(logs: seq<AuditLog>): string {
    FormatTable(HEADERS, logs)
  }

  // ----- the reader -----

  /** A value read from the front of the input, and the rest of the input. */
  datatype Read<+T> = Fail | Got(value: T, rest: string)

  /** TEXTDATA: anything but a comma, a quote or a line break. */
  predicate IsTextData(c: char) {
    c != ',' && c != '"' && c != '\n' && c != '\r'
  }

  function ReadPlain(s: string): Read<string> {
    if s == "" || !IsTextData(s[0]) then Got("", s)
    else
      match ReadPlain(s[1..])
      case Fail => Fail
      case Got(field, rest) => Got([s[0]] + field, rest)
  }

  /** The inside of a quoted field, up to the closing quote. */
  function ReadQuoted(s: string): Read<string> {
    if s == "" then Fail
    else if s[0] == '"' && (|s| == 1 || s[1] != '"') then Got("", s[1..])
    else
      var skip := if s[0] == '"' then 2 else 1;
      match ReadQuoted(s[skip..])
      case Fail => Fail
      case Got(field, rest) => Got([s[0]] + field, rest)
  }

  function ReadField(s: string): (r: Read<string>) {
    if s != "" && s[0] == '"' then ReadQuoted(s[1..]) else ReadPlain(s)
  }

  lemma {:induction false} ReadQuotedShorter(s: string)
    ensures ReadQuoted(s).Got? ==> |ReadQuoted(s).rest| < |s|
  {
    if s != "" && !(s[0] == '"' && (|s| == 1 || s[1] != '"')) {
      ReadQuotedShorter(s[if s[0] == '"' then 2 else 1..]);
    }
  }

  lemma {:induction false} ReadPlainShorter(s: string)
    ensures ReadPlain(s).Got? ==> |ReadPlain(s).rest| <= |s|
  {
    if s != "" && IsTextData(s[0]) {
      ReadPlainShorter(s[1..]);
    }
  }

  /** record = field *(COMMA field) */
  function ReadRecord(s: string): (r: Read<seq<string>>)
    ensures r.Got? ==> |r.rest| <= |s|
    decreases |s|
  {
    ReadQuotedShorter(if s == "" then s else s[1..]);
    ReadPlainShorter(s);
    match ReadField(s)
    case Fail => Fail
    case Got(field, rest) =>
      if rest != "" && rest[0] == ',' then
        match ReadRecord(rest[1..])
        case Fail => Fail
        case Got(fields, rest') => Got([field] + fields, rest')
      else Got([field], rest)
  }

  /** file = record *(LF record) [LF]; None if the input is not of this form. */
  function ReadRecords(s: string): Option<seq<seq<string>>>
    decreases |s|
  {
    match ReadRecord(s)
    case Fail => None
    case Got(record, rest) =>
      if rest == "" || rest == "\n" then Some([record])
      else if rest[0] != '\n' then None
      else
        match ReadRecords(rest[1..])
        case None => None
        case Some(records) => Some([record] + records)
  }

  function ReadFile(s: string): Option<seq<seq<string>>> {
    ReadRecords(if s != "" && s[0] == BOM then s[1..] else s)
  }

  // ----- one field -----

  predicate EndsField(rest: string) {
    rest == "" || rest[0] == ',' || rest[0] == '\n'
  }

  lemma {:induction false} PlainRoundTrip(value: string, rest: string)
    requires !NeedsQuotes(value) && EndsField(rest)
    ensures ReadPlain(value + rest) == Got(value, rest)
  {
    if value == "" {
      assert value + rest == rest;
    } else {
      assert value[0] in value;
      assert (value + rest)[1..] == value[1..] + rest;
      assert forall c :: c in value[1..] ==> c in value;
      PlainRoundTrip(value[1..], rest);
      assert value == [value[0]] + value[1..];
    }
  }

  lemma HeadFirst(a: string, b: string, c: string, d: string)
    ensures a + b + c + d == a + (b + c + d)
  {
  }

  /** A character of a quoted field, a quote being doubled, and the rest of the field. */
  lemma ReadQuotedChar(c: char, tail: string)
    requires ReadQuoted(tail).Got?
    ensures ReadQuoted((if c == '"' then "\"\"" else [c]) + tail) == Got([c] + ReadQuoted(tail).value, ReadQuoted(tail).rest)
  {
    var s := (if c == '"' then "\"\"" else [c]) + tail;
    assert s[if c == '"' then 2 else 1..] == tail;
  }

  lemma {:induction false} QuotedRoundTrip(value: string, rest: string)
    requires EndsField(rest)
    ensures ReadQuoted(DoubleQuotes(value) + "\"" + rest) == Got(value, rest)
  {
    var s := DoubleQuotes(value) + "\"" + rest;
    if value == "" {
      assert s == "\"" + rest;
      assert s[1..] == rest;
    } else {
      var tail := DoubleQuotes(value[1..]) + "\"" + rest;
      QuotedRoundTrip(value[1..], rest);
      assert value == [value[0]] + value[1..];
      ReadQuotedChar(value[0], tail);
      HeadFirst(if value[0] == '"' then "\"\"" else [value[0]], DoubleQuotes(value[1..]), "\"", rest);
    }
  }

  lemma OpenQuote(tail: string)
    ensures ReadField("\"" + tail) == ReadQuoted(tail)
  {
    assert ("\"" + tail)[1..] == tail;
  }

  lemma FieldRoundTrip(value: string, rest: string)
    requires EndsField(rest)
    ensures ReadField(EscapeCSV(Some(value)) + rest) == Got(value, rest)
  {
    var s := EscapeCSV(Some(value)) + rest;
    if NeedsQuotes(value) {
      HeadFirst("\"", DoubleQuotes(value), "\"", rest);
      OpenQuote(DoubleQuotes(value) + "\"" + rest);
      QuotedRoundTrip(value, rest);
    } else {
      PlainRoundTrip(value, rest);
      if value != "" {
        assert s[0] in value;
      }
    }
  }

  lemma {:induction false} ReadQuotedLength(s: string)
    ensures ReadQuoted(s).Got? ==> |ReadQuoted(s).value| < |s|
  {
    if s != "" && !(s[0] == '"' && (|s| == 1 || s[1] != '"')) {
      ReadQuotedLength(s[if s[0] == '"' then 2 else 1..]);
    }
  }

  lemma {:induction false} ReadPlainIsText(s: string)
    ensures ReadPlain(s).Got? && forall c :: c in ReadPlain(s).value ==> IsTextData(c)
  {
    if s != "" && IsTextData(s[0]) {
      ReadPlainIsText(s[1..]);
    }
  }

  /** A value is put in quotes exactly when it would not read back without them. */
  lemma QuotesExactlyWhenNeeded(value: string)
    ensures (forall rest :: EndsField(rest) ==> ReadField(value + rest) == Got(value, rest))
       <==> EscapeCSV(Some(value)) == value
  {
    if NeedsQuotes(value) {
      assert |EscapeCSV(Some(value))| > |value| by {
        DoubleQuotesLength(value);
      }
      assert value + "" == value;
      if value[0] == '"' {
        ReadQuotedLength(value[1..]);
      } else {
        ReadPlainIsText(value);
      }
      assert ReadField(value + "") != Got(value, "");
      assert EndsField("");
    } else {
      forall rest | EndsField(rest) ensures ReadField(value + rest) == Got(value, rest) {
        FieldRoundTrip(value, rest);
      }
    }
  }

  lemma {:induction false} DoubleQuotesLength(s: string)
    ensures |DoubleQuotes(s)| >= |s|
  {
    if s != "" {
      DoubleQuotesLength(s[1..]);
    }
  }

  // ----- one record -----

  predicate EndsRecord(rest: string) {
    rest == "" || rest[0] == '\n'
  }

  lemma LastField(field: string, rest: string)
    requires EndsRecord(rest)
    ensures ReadRecord(EscapeCSV(Some(field)) + rest) == Got([field], rest)
  {
    FieldRoundTrip(field, rest);
  }

  lemma FieldThenRecord(field: string, tail: string)
    requires ReadRecord(tail).Got?
    ensures ReadRecord(EscapeCSV(Some(field)) + "," + tail)
         == Got([field] + ReadRecord(tail).value, ReadRecord(tail).rest)
  {
    var rest := "," + tail;
    assert EscapeCSV(Some(field)) + "," + tail == EscapeCSV(Some(field)) + rest;
    assert rest[1..] == tail;
    FieldRoundTrip(field, rest);
  }

  /** The printed record is its first field, a comma, and the record of the other fields. */
  lemma RecordStep(fields: seq<string>, rest: string)
    requires |fields| > 1
    ensures Join(Escaped(fields), ",") + rest
         == EscapeCSV(Some(fields[0])) + "," + (Join(Escaped(fields[1..]), ",") + rest)
  {
    assert Escaped(fields)[1..] == Escaped(fields[1..]);
  }

  lemma {:induction false} RecordRoundTrip(fields: seq<string>, rest: string)
    requires fields != [] && EndsRecord(rest)
    ensures ReadRecord(Join(Escaped(fields), ",") + rest) == Got(fields, rest)
  {
    if |fields| == 1 {
      LastField(fields[0], rest);
      assert fields == [fields[0]];
    } else {
      RecordStep(fields, rest);
      RecordRoundTrip(fields[1..], rest);
      FieldThenRecord(fields[0], Join(Escaped(fields[1..]), ",") + rest);
      assert fields == [fields[0]] + fields[1..];
    }
  }

  // ----- the file -----

  function Lines(records: seq<seq<string>>): (lines: seq<string>)
    ensures |lines| == |records|
    ensures forall i :: 0 <= i < |records| ==> lines[i] == Join(Escaped(records[i]), ",")
  {
    seq(|records|, i requires 0 <= i < |records| => Join(Escaped(records[i]), ","))
  }

  lemma PrintedStep(records: seq<seq<string>>)
    requires |records| > 1
    ensures Join(Lines(records), "\n") == Join(Escaped(records[0]), ",") + "\n" + Join(Lines(records[1..]), "\n")
  {
    assert Lines(records)[1..] == Lines(records[1..]);
  }

  lemma PrintedNotEmpty(fields: seq<string>)
    requires |fields| > 1
    ensures Join(Escaped(fields), ",") != ""
  {
  }

  lemma RecordThenRecords(fields: seq<string>, tail: string)
    requires fields != [] && tail != "" && ReadRecords(tail).Some?
    ensures ReadRecords(Join(Escaped(fields), ",") + "\n" + tail) == Some([fields] + ReadRecords(tail).value)
  {
    var rest := "\n" + tail;
    assert Join(Escaped(fields), ",") + "\n" + tail == Join(Escaped(fields), ",") + rest;
    assert rest[1..] == tail && |rest| > 1;
    RecordRoundTrip(fields, rest);
  }

  lemma OneRecord(fields: seq<string>)
    requires fields != []
    ensures ReadRecords(Join(Escaped(fields), ",")) == Some([fields])
    ensures Join(Lines([fields]), "\n") == Join(Escaped(fields), ",")
  {
    var line := Join(Escaped(fields), ",");
    assert line + "" == line;
    RecordRoundTrip(fields, "");
    assert Lines([fields]) == [line];
  }

  /** Records of two fields or more, in any number and with any contents, read back as written. */
  lemma {:induction false} RecordsRoundTrip(records: seq<seq<string>>)
    requires records != [] && forall i :: 0 <= i < |records| ==> |records[i]| > 1
    ensures ReadRecords(Join(Lines(records), "\n")) == Some(records)
    ensures Join(Lines(records), "\n") != ""
  {
    PrintedNotEmpty(records[0]);
    if |records| == 1 {
      OneRecord(records[0]);
      assert records == [records[0]];
    } else {
      PrintedStep(records);
      RecordsRoundTrip(records[1..]);
      RecordThenRecords(records[0], Join(Lines(records[1..]), "\n"));
      assert records == [records[0]] + records[1..];
    }
  }

  lemma HeaderOnlyRoundTrip(headers: seq<string>)
    requires headers != []
    ensures ReadRecords(Join(Escaped(headers), ",") + "\n") == Some([headers])
  {
    RecordRoundTrip(headers, "\n");
  }

  /** A header line, a line feed, then the records joined by line feeds; there may be none. */
  lemma TableRoundTrip(headers: seq<string>, records: seq<seq<string>>)
    requires |headers| > 1
    requires forall i :: 0 <= i < |records| ==> |records[i]| > 1
    ensures ReadRecords(Join(Escaped(headers), ",") + "\n" + Join(Lines(records), "\n")) == Some([headers] + records)
  {
    var line, all := Join(Escaped(headers), ","), [headers] + records;
    if records == [] {
      HeaderOnlyRoundTrip(headers);
      assert line + "\n" + Join(Lines(records), "\n") == line + "\n";
      assert all == [headers];
    } else {
      RecordsRoundTrip(all);
      PrintedStep(all);
      assert all[1..] == records;
    }
  }

  lemma HeadersNeedNoQuotes()
    ensures Escaped(HEADERS) == HEADERS
  {
    forall i | 0 <= i < |HEADERS| ensures !NeedsQuotes(HEADERS[i]) {
      HeaderNeedsNoQuotes(i);
    }
  }

  lemma HeaderNeedsNoQuotes(i: nat)
    requires i < |HEADERS|
    ensures !NeedsQuotes(HEADERS[i])
  {
    if i == 0 {
      assert HEADERS[i] == "ID";
    } else if i == 1 {
      assert HEADERS[i] == "日時";
    } else if i == 2 {
      assert HEADERS[i] == "カテゴリ";
    } else if i == 3 {
      assert HEADERS[i] == "アクション";
    } else if i == 4 {
      assert HEADERS[i] == "ユーザー";
    } else if i == 5 {
      assert HEADERS[i] == "対象タイプ";
    } else if i == 6 {
      assert HEADERS[i] == "対象ID";
    } else if i == 7 {
      assert HEADERS[i] == "IPアドレス";
    } else {
      assert HEADERS[i] == "詳細";
    }
  }

  /** One record of nine fields per log. */
  function Records(logs: seq<AuditLog>): (records: seq<seq<string>>)
    ensures |records| == |logs|
    ensures forall i :: 0 <= i < |logs| ==> records[i] == Fields(logs[i])
  {
    seq(|logs|, i requires 0 <= i < |logs| => Fields(logs[i]))
  }

  lemma RowsAreLines(logs: seq<AuditLog>)
    ensures FormatRows(logs) == Lines(Records(logs))
  {
  }

  lemma ExportRoundTrip(headers: seq<string>, logs: seq<AuditLog>)
    requires |headers| > 1 && Escaped(headers) == headers
    ensures ReadFile(FormatTable(headers, logs)) == Some([headers] + Records(logs))
  {
    RowsAreLines(logs);
    TableRoundTrip(headers, Records(logs));
    var text := Join(headers, ",") + "\n" + Join(FormatRows(logs), "\n");
    SkipBom(text);
    assert FormatTable(headers, logs) == [BOM] + text;
  }

  /** The record shows the log column by column; a column without a value shows its fallback. */
  predicate ShowsLog(record: seq<string>, log: AuditLog) {
    && |record| == 9
    && record[0] == log.id && record[1] == log.createdAt && record[2] == log.category && record[3] == log.action
    && record[4] == (if log.userEmail.Some? && log.userEmail.value != "" then log.userEmail.value else "システム")
    && record[5] == (if log.targetType.Some? then log.targetType.value else "")
    && record[6] == (if log.targetId.Some? then log.targetId.value else "")
    && record[7] == (if log.ipAddress.Some? then log.ipAddress.value else "")
    && record[8] == (if log.details.Some? then log.details.value else "")
  }

  /** Whatever quotes, commas and line breaks the logs hold, the export reads back exactly. */
  lemma CsvRoundTrip(logs: seq<AuditLog>)
    ensures ReadFile(FormatAsCSV(logs)) == Some([HEADERS] + Records(logs))
  {
    HeadersNeedNoQuotes();
    ExportRoundTrip(HEADERS, logs);
  }

  /** The table shows the headers and then, record by record, the logs. */
  predicate ShowsLogs(table: seq<seq<string>>, headers: seq<string>, logs: seq<AuditLog>) {
    && |table| == |logs| + 1 && table[0] == headers
    && forall i :: 0 <= i < |logs| ==> ShowsLog(table[i + 1], logs[i])
  }

  lemma FieldsShow(log: AuditLog)
    ensures ShowsLog(Fields(log), log)
  {
  }

  lemma RecordsShow(headers: seq<string>, logs: seq<AuditLog>)
    ensures ShowsLogs([headers] + Records(logs), headers, logs)
  {
    forall i | 0 <= i < |logs| ensures ShowsLog(([headers] + Records(logs))[i + 1], logs[i]) {
      FieldsShow(logs[i]);
    }
  }

  lemma HeadersAre()
    ensures HEADERS == ["ID", "日時", "カテゴリ", "アクション", "ユーザー", "対象タイプ", "対象ID", "IPアドレス", "詳細"]
  {
  }

  lemma StartsWithBom(headers: seq<string>, logs: seq<AuditLog>)
    ensures FormatTable(headers, logs)[0] == '\U{FEFF}'
  {
  }

  /** What a reader of the export gets, in the columns of the logs. */
  lemma CsvShowsLogs(logs: seq<AuditLog>) returns (table: seq<seq<string>>)
    ensures FormatAsCSV(logs) != "" && FormatAsCSV(logs)[0] == '\U{FEFF}'
    ensures ReadFile(FormatAsCSV(logs)) == Some(table)
    ensures ShowsLogs(table,
      ["ID", "日時", "カテゴリ", "アクション", "ユーザー", "対象タイプ", "対象ID", "IPアドレス", "詳細"], logs)
  {
    HeadersAre();
    StartsWithBom(HEADERS, logs);
    CsvRoundTrip(logs);
    table := [HEADERS] + Records(logs);
    RecordsShow(HEADERS, logs);
  }

  lemma SkipBom(text: string)
    ensures ReadFile([BOM] + text) == ReadRecords(text)
  {
    assert ([BOM] + text)[1..] == text;
  }

  /** Two exports are the same text only if they show the same nine values for every log. */
  lemma CsvInjective(a: seq<AuditLog>, b: seq<AuditLog>)
    ensures FormatAsCSV(a) == FormatAsCSV(b) <==> Records(a) == Records(b)
  {
    CsvRoundTrip(a);
    CsvRoundTrip(b);
    assert ([HEADERS] + Records(a))[1..] == Records(a);
    assert ([HEADERS] + Records(b))[1..] == Records(b);
    if Records(a) == Records(b) {
      forall i | 0 <= i < |a| ensures FormatRow(a[i]) == FormatRow(b[i]) {
        assert Records(a)[i] == Records(b)[i];
      }
      assert FormatRows(a) == FormatRows(b);
    }
  }
}
