/** The CSV event export (src/controllers/exportController.ts), read back by a reader for
    RFC 4180 section 2 with bare line feeds between records. */
module CsvExport {
  import opened Radix

  // ----- Encoding -----

  predicate IsFormulaTrigger(c: char) {
    c == '=' || c == '+' || c == '-' || c == '@' || c == '\t' || c == '\r'
  }

  /** The value with a tab before a leading formula trigger. */
  function Guarded(value: string): string {
    if value != "" && IsFormulaTrigger(value[0]) then "\t" + value else value
  }

  predicate IsSpecial(c: char) {
    c == ',' || c == '\"' || c == '\n' || c == '\r' || c == '\t'
  }

  predicate HasSpecial(s: string) {
    exists i :: 0 <= i < |s| && IsSpecial(s[i])
  }

  /** Every double quote doubled. */
  function Doubled(s: string): string {
    if s == "" then ""
    else (if s[0] == '\"' then "\"\"" else [s[0]]) + Doubled(s[1..])
  }

  function CsvEscapeField(value: string): string {
    var safe := Guarded(value);
    if HasSpecial(safe) then "\"" + (Doubled(safe) + "\"") else safe
  }

  /** An event; `payload` is its JSON text, and the timestamp may be missing. */
  datatype EventRow = EventRow(eventType: string, ledger: int, createdAt: Timestamp, payload: string)

  datatype Timestamp = Missing | At(ms: int)

  function Seconds(t: Timestamp): int {
    match t
    case Missing => 0
    case At(ms) => ms / 1000
  }

  /** Written fields separated by commas, then a line feed. */
  function Line(fields: seq<string>): string
    requires fields != []
  {
    if |fields| == 1 then fields[0] + "\n" else fields[0] + ("," + Line(fields[1..]))
  }

  function FormatEventCsvRow(row: EventRow): string {
    Line([CsvEscapeField(row.eventType), IntText(row.ledger), IntText(Seconds(row.createdAt)),
          CsvEscapeField(row.payload)])
  }

  const HEADER_RECORD: seq<string> := ["event_type", "ledger", "timestamp", "payload"]

  const HEADER: string := Line(HEADER_RECORD)

  function FooterRecord(n: nat): seq<string> {
    ["__EOF__", Decimal(n), "", ""]
  }

  function Footer(n: nat): string {
    Line(FooterRecord(n))
  }

  function Rows(rows: seq<EventRow>): string {
    if rows == [] then "" else Rows(rows[..|rows| - 1]) + FormatEventCsvRow(rows[|rows| - 1])
  }

  function CompleteFile(rows: seq<EventRow>): string {
    HEADER + Rows(rows) + Footer(|rows|)
  }

  const DISCONNECT_CHECK_INTERVAL := 500

  /** Everything written once `n` rows have been sent. */
  function Sent(rows: seq<EventRow>, n: nat): string
    requires n <= |rows|
  {
    HEADER + Rows(rows[..n])
  }

  lemma SentNext(rows: seq<EventRow>, n: nat)
    requires n < |rows|
    ensures Sent(rows, n + 1) == Sent(rows, n) + FormatEventCsvRow(rows[n])
  {
    assert rows[..n + 1][..n] == rows[..n];
    assert (HEADER + Rows(rows[..n])) + FormatEventCsvRow(rows[n]) ==
        HEADER + (Rows(rows[..n]) + FormatEventCsvRow(rows[n]));
  }

  lemma SentAll(rows: seq<EventRow>)
    ensures Sent(rows, 0) == HEADER
    ensures Sent(rows, |rows|) + Footer(|rows|) == CompleteFile(rows)
  {
    assert rows[..|rows|] == rows;
    assert HEADER + Rows([]) == HEADER;
  }

  /** The loop looks for a close after row `k`: a write that has to drain, or every 500 rows. */
  predicate Yields(k: nat, blocks: nat -> bool) {
    blocks(k) || k % DISCONNECT_CHECK_INTERVAL == 0
  }

  /** The streaming loop. `blocks(k)` says whether the k-th write has to wait for a drain, and
      `gone(k)` whether the client has closed by the time the loop yields after k rows; a close
      also ends the row iterator. */
  method ExportEvents(rows: seq<EventRow>, blocks: nat -> bool, gone: nat -> bool)
    returns (out: string, completed: bool, written: nat)
    ensures completed ==> out == CompleteFile(rows) && written == |rows|
    ensures !completed ==>
              0 < written <= |rows| && out == Sent(rows, written) && Yields(written, blocks) && gone(written)
    ensures forall k | 0 < k < written && Yields(k, blocks) :: !gone(k)
    ensures completed && written > 0 && Yields(written, blocks) ==> !gone(written)
    ensures forall k | 0 < k < written && (blocks(k) || k % 500 == 0) :: !gone(k)
  {
    hide FormatEventCsvRow, Footer, CompleteFile, Sent, HEADER;
    SentAll(rows);
    out, written, completed := HEADER, 0, false;
    var clientDisconnected := false;
    while written < |rows| && !clientDisconnected
      invariant written <= |rows| && out == Sent(rows, written)
      invariant clientDisconnected ==> 0 < written && Yields(written, blocks) && gone(written)
      invariant forall k | 0 < k < written && Yields(k, blocks) :: !gone(k)
      invariant !clientDisconnected && written > 0 && Yields(written, blocks) ==> !gone(written)
      decreases |rows| - written
    {
      SentNext(rows, written);
      out := out + FormatEventCsvRow(rows[written]);
      written := written + 1;
      if blocks(written) && gone(written) {
        clientDisconnected := true;
      }
      if written % DISCONNECT_CHECK_INTERVAL == 0 {
        clientDisconnected := clientDisconnected || gone(written);
        if clientDisconnected {
          return;
        }
      }
    }
    if clientDisconnected {
      return;
    }
    out := out + Footer(written);
    completed := true;
  }

  /** A client that stays away is noticed within 500 rows. */
  lemma LeftSoon(gone: nat -> bool, blocks: nat -> bool, written: nat, k: nat)
    requires forall n | 0 < n < written && (blocks(n) || n % 500 == 0) :: !gone(n)
    requires 0 < k && forall n | n >= k :: gone(n)
    ensures written <= k + 500
  {
    var n := (k + 499) / 500 * 500;
    assert n % 500 == 0 && k <= n < k + 500;
    assert gone(n);
  }

  // ----- Reading -----

  datatype Mode = FieldStart | Unquoted | Quoted | QuoteSeen | Malformed

  /** A reader in the middle of a file. */
  datatype Reader = Reader(mode: Mode, field: string, record: seq<string>, records: seq<seq<string>>)

  function EndField(r: Reader): Reader {
    Reader(FieldStart, "", r.record + [r.field], r.records)
  }

  function EndRecord(r: Reader): Reader {
    Reader(FieldStart, "", [], r.records + [r.record + [r.field]])
  }

  function Read(r: Reader, c: char): Reader {
    match r.mode
    case Malformed => r
    case Quoted => if c == '\"' then r.(mode := QuoteSeen) else r.(field := r.field + [c])
    case QuoteSeen =>
      if c == '\"' then r.(mode := Quoted, field := r.field + [c])
      else if c == ',' then EndField(r)
      else if c == '\n' then EndRecord(r)
      else r.(mode := Malformed)
    case _ =>
      if c == ',' then EndField(r)
      else if c == '\n' then EndRecord(r)
      else if c == '\"' then (if r.mode == FieldStart then r.(mode := Quoted) else r.(mode := Malformed))
      else if c == '\r' then r.(mode := Malformed)
      else r.(mode := Unquoted, field := r.field + [c])
  }

  function ReadAll(r: Reader, text: string): Reader
    decreases text
  {
    if text == "" then r else ReadAll(Read(r, text[0]), text[1..])
  }

  const BLANK: Reader := Reader(FieldStart, "", [], [])

  datatype Decoded = NotCsv | Records(records: seq<seq<string>>)

  /** The end of the text also ends a record that was begun: its line feed may be missing. */
  function Finish(r: Reader): Reader {
    if r.mode in {Quoted, Malformed} || (r.mode == FieldStart && r.record == []) then r else EndRecord(r)
  }

  function Decode(text: string): Decoded {
    var r := Finish(ReadAll(BLANK, text));
    if r.mode == FieldStart then Records(r.records) else NotCsv
  }

  /** The receiver's undoing of the guard: one leading tab comes off. */
  function Strip(field: string): string {
    if field != "" && field[0] == '\t' then field[1..] else field
  }

  function RecordOf(row: EventRow): seq<string> {
    [Guarded(row.eventType), IntText(row.ledger), IntText(Seconds(row.createdAt)), Guarded(row.payload)]
  }

  function RecordsOf(rows: seq<EventRow>): seq<seq<string>> {
    if rows == [] then [] else RecordsOf(rows[..|rows| - 1]) + [RecordOf(rows[|rows| - 1])]
  }

  predicate IsFooter(record: seq<string>) {
    |record| == 4 && record[0] == "__EOF__" && record[2] == "" && record[3] == ""
  }

  // ----- Fields -----

  lemma {:induction false} ReadConcat(r: Reader, a: string, b: string)
    ensures ReadAll(r, a + b) == ReadAll(ReadAll(r, a), b)
    decreases a
  {
    if a == "" {
      assert a + b == b;
    } else {
      assert (a + b)[1..] == a[1..] + b;
      ReadConcat(Read(r, a[0]), a[1..], b);
    }
  }

  lemma ReadOne(r: Reader, c: char)
    ensures ReadAll(r, [c]) == Read(r, c)
  {
    assert [c][1..] == "";
  }

  /** Characters that need no quoting are collected as they stand. */
  lemma {:induction false} ReadPlain(r: Reader, text: string)
    requires r.mode == FieldStart || r.mode == Unquoted
    requires !HasSpecial(text)
    ensures ReadAll(r, text) == if text == "" then r else r.(mode := Unquoted, field := r.field + text)
    decreases text
  {
    if text != "" {
      assert !IsSpecial(text[0]);
      assert forall i | 0 <= i < |text[1..]| :: text[1..][i] == text[i + 1];
      ReadPlain(Read(r, text[0]), text[1..]);
      assert r.field + [text[0]] + text[1..] == r.field + text;
    }
  }

  lemma {:induction false} ReadDoubled(r: Reader, text: string)
    requires r.mode == Quoted
    ensures ReadAll(r, Doubled(text)) == r.(field := r.field + text)
    decreases text
  {
    if text == "" {
      assert r.field + text == r.field;
    } else {
      var first := if text[0] == '\"' then "\"\"" else [text[0]];
      var advanced := r.(field := r.field + [text[0]]);
      ReadConcat(r, first, Doubled(text[1..]));
      if text[0] == '\"' {
        assert first[1..] == ['\"'];
        ReadOne(Read(r, '\"'), '\"');
      } else {
        ReadOne(r, text[0]);
      }
      ReadDoubled(advanced, text[1..]);
      assert r.field + [text[0]] + text[1..] == r.field + text;
    }
  }

  /** A reader that has just read a whole field: the separator decides what follows. */
  ghost predicate HasField(r: Reader, before: Reader, field: string) {
    && r.mode in {FieldStart, Unquoted, QuoteSeen}
    && r.field == field && r.record == before.record && r.records == before.records
  }

  lemma QuotedRead(r: Reader, text: string)
    requires r.mode == FieldStart && r.field == ""
    ensures HasField(ReadAll(r, "\"" + (Doubled(text) + "\"")), r, text)
  {
    hide Doubled;
    var open := r.(mode := Quoted);
    ReadConcat(r, "\"", Doubled(text) + "\"");
    ReadOne(r, '\"');
    ReadConcat(open, Doubled(text), "\"");
    ReadDoubled(open, text);
    ReadOne(open.(field := "" + text), '\"');
    assert "" + text == text;
  }

  lemma PlainRead(r: Reader, text: string)
    requires r.mode == FieldStart && r.field == "" && !HasSpecial(text)
    ensures HasField(ReadAll(r, text), r, text)
  {
    ReadPlain(r, text);
    assert "" + text == text;
  }

  /** `written` is read as `field`, from any field start. */
  ghost predicate ReadsAs(written: string, field: string) {
    forall r: Reader | r.mode == FieldStart && r.field == "" :: HasField(ReadAll(r, written), r, field)
  }

  /** A written field is read as the guarded value. */
  lemma EscapedReadsAs(value: string)
    ensures ReadsAs(CsvEscapeField(value), Guarded(value))
  {
    hide Doubled, ReadAll, Guarded, HasSpecial;
    forall r: Reader | r.mode == FieldStart && r.field == ""
      ensures HasField(ReadAll(r, CsvEscapeField(value)), r, Guarded(value))
    {
      if HasSpecial(Guarded(value)) {
        QuotedRead(r, Guarded(value));
      } else {
        PlainRead(r, Guarded(value));
      }
    }
  }

  lemma PlainReadsAs(text: string)
    requires !HasSpecial(text)
    ensures ReadsAs(text, text)
  {
    forall r: Reader | r.mode == FieldStart && r.field == "" ensures HasField(ReadAll(r, text), r, text) {
      PlainRead(r, text);
    }
  }

  lemma IntIsPlain(n: int)
    ensures !HasSpecial(IntText(n)) && IntText(n) != ""
  {
    if n < 0 {
      assert IntText(n) == "-" + Decimal(-n);
    }
  }

  // ----- Lines -----

  /** A written field and the separator after it. */
  lemma FieldAndSeparator(r: Reader, written: string, field: string, separator: char, rest: string)
    requires r.mode == FieldStart && r.field == "" && ReadsAs(written, field) && (separator == ',' || separator == '\n')
    ensures ReadAll(r, written + ([separator] + rest)) ==
            ReadAll(if separator == ',' then Reader(FieldStart, "", r.record + [field], r.records)
                    else Reader(FieldStart, "", [], r.records + [r.record + [field]]), rest)
  {
    var after := ReadAll(r, written);
    assert HasField(after, r, field);
    ReadConcat(r, written, [separator] + rest);
    ReadConcat(after, [separator], rest);
    ReadOne(after, separator);
  }

  /** A line of written fields is read as one record of what they stand for. */
  lemma {:induction false} LineRead(r: Reader, written: seq<string>, fields: seq<string>)
    requires r.mode == FieldStart && r.field == "" && |written| == |fields| && written != []
    requires forall i | 0 <= i < |written| :: ReadsAs(written[i], fields[i])
    ensures ReadAll(r, Line(written)) == Reader(FieldStart, "", [], r.records + [r.record + fields])
    decreases |written|
  {
    hide ReadsAs;
    if |written| == 1 {
      FieldAndSeparator(r, written[0], fields[0], '\n', "");
      assert written[0] + (['\n'] + "") == Line(written);
      assert fields == [fields[0]];
    } else {
      FieldAndSeparator(r, written[0], fields[0], ',', Line(written[1..]));
      hide ReadAll;
      LineRead(Reader(FieldStart, "", r.record + [fields[0]], r.records), written[1..], fields[1..]);
      assert r.record + [fields[0]] + fields[1..] == r.record + fields;
    }
  }

  /** Every row is one record of its guarded fields, and stripping gives the fields back. */
  lemma RowRead(r: Reader, row: EventRow)
    requires r.mode == FieldStart && r.field == "" && r.record == []
    ensures ReadAll(r, FormatEventCsvRow(row)) == Reader(FieldStart, "", [], r.records + [RecordOf(row)])
  {
    EscapedReadsAs(row.eventType);
    EscapedReadsAs(row.payload);
    IntIsPlain(row.ledger);
    IntIsPlain(Seconds(row.createdAt));
    PlainReadsAs(IntText(row.ledger));
    PlainReadsAs(IntText(Seconds(row.createdAt)));
    LineRead(r, [CsvEscapeField(row.eventType), IntText(row.ledger), IntText(Seconds(row.createdAt)),
                 CsvEscapeField(row.payload)],
             RecordOf(row));
    assert [] + RecordOf(row) == RecordOf(row);
  }

  lemma StripUndoesGuard(value: string)
    ensures Strip(Guarded(value)) == value
    ensures Guarded(value) != "" ==> Guarded(value)[0] !in {'=', '+', '-', '@'}
  {
    if value != "" && IsFormulaTrigger(value[0]) {
      assert Guarded(value)[1..] == value;
    }
  }

  /** A free-text field keeps its text, behind a tab where a spreadsheet would take it for a formula. */
  predicate IsGuarded(field: string, text: string) {
    if text != "" && text[0] in {'=', '+', '-', '@', '\t', '\r'} then field == "\t" + text else field == text
  }

  /** What a data record says of its row, read back: the type, the ledger, the whole seconds of
      the timestamp, or 0 when it is missing, and the payload. */
  predicate Tells(record: seq<string>, row: EventRow) {
    && |record| == 4
    && IsGuarded(record[0], row.eventType) && Strip(record[0]) == row.eventType
    && ParseInt(record[1]) == row.ledger
    && (match row.createdAt
        case Missing => ParseInt(record[2]) == 0
        case At(ms) => ParseInt(record[2]) * 1000 <= ms < ParseInt(record[2]) * 1000 + 1000)
    && IsGuarded(record[3], row.payload) && Strip(record[3]) == row.payload
  }

  lemma RecordTells(row: EventRow)
    ensures Tells(RecordOf(row), row)
  {
    StripUndoesGuard(row.eventType);
    StripUndoesGuard(row.payload);
    IntTextParses(row.ledger);
    IntTextParses(Seconds(row.createdAt));
    hide IntText, ParseInt;
  }

  /** One data line decodes to one record that tells its row; a free-text field never starts with
      a formula trigger but the tab. */
  lemma RowRoundTrip(row: EventRow)
    ensures Decode(FormatEventCsvRow(row)) == Records([RecordOf(row)]) && Tells(RecordOf(row), row)
    ensures forall i | i in {0, 3} && RecordOf(row)[i] != "" :: RecordOf(row)[i][0] !in {'=', '+', '-', '@', '\r'}
  {
    RowRead(BLANK, row);
    RecordTells(row);
  }

  // ----- Files -----

  /** A line of fields that need no quoting is read as those fields. */
  lemma PlainLineRead(r: Reader, fields: seq<string>)
    requires r.mode == FieldStart && r.field == "" && r.record == [] && fields != []
    requires forall i | 0 <= i < |fields| :: !HasSpecial(fields[i])
    ensures ReadAll(r, Line(fields)) == Reader(FieldStart, "", [], r.records + [fields])
  {
    hide ReadAll, HasSpecial, Line, ReadsAs;
    forall i | 0 <= i < |fields| ensures ReadsAs(fields[i], fields[i]) {
      PlainReadsAs(fields[i]);
    }
    LineRead(r, fields, fields);
    assert r.record + fields == fields;
  }

  lemma HeaderRead()
    ensures ReadAll(BLANK, HEADER) == Reader(FieldStart, "", [], [HEADER_RECORD])
  {
    hide ReadAll, Line;
    PlainLineRead(BLANK, HEADER_RECORD);
    assert BLANK.records + [HEADER_RECORD] == [HEADER_RECORD];
  }

  lemma FooterRead(r: Reader, n: nat)
    requires r.mode == FieldStart && r.field == "" && r.record == []
    ensures ReadAll(r, Footer(n)) == Reader(FieldStart, "", [], r.records + [FooterRecord(n)])
  {
    hide ReadAll, Line;
    IntIsPlain(n);
    PlainLineRead(r, FooterRecord(n));
  }

  lemma {:induction false} RowsRead(rows: seq<EventRow>)
    ensures ReadAll(BLANK, HEADER + Rows(rows)) == Reader(FieldStart, "", [], [HEADER_RECORD] + RecordsOf(rows))
  {
    hide ReadAll, Line, FormatEventCsvRow, RecordOf;
    if rows == [] {
      HeaderRead();
      assert HEADER + Rows(rows) == HEADER;
      assert [HEADER_RECORD] + RecordsOf(rows) == [HEADER_RECORD];
    } else {
      var before, last := rows[..|rows| - 1], rows[|rows| - 1];
      RowsRead(before);
      assert HEADER + Rows(rows) == (HEADER + Rows(before)) + FormatEventCsvRow(last);
      ReadConcat(BLANK, HEADER + Rows(before), FormatEventCsvRow(last));
      RowRead(ReadAll(BLANK, HEADER + Rows(before)), last);
      assert [HEADER_RECORD] + RecordsOf(before) + [RecordOf(last)] == [HEADER_RECORD] + RecordsOf(rows);
    }
  }

  lemma FileDecodes(rows: seq<EventRow>)
    ensures Decode(CompleteFile(rows)) == Records([HEADER_RECORD] + RecordsOf(rows) + [FooterRecord(|rows|)])
  {
    RowsRead(rows);
    ReadConcat(BLANK, HEADER + Rows(rows), Footer(|rows|));
    FooterRead(ReadAll(BLANK, HEADER + Rows(rows)), |rows|);
  }

  /** A completed file decodes to the header, a record that tells each row, in order, and one
      footer that spells their number. */
  lemma CompleteFileDecodes(rows: seq<EventRow>)
    ensures Decode(CompleteFile(rows)).Records?
    ensures var records := Decode(CompleteFile(rows)).records;
            && |records| == |rows| + 2
            && records[0] == ["event_type", "ledger", "timestamp", "payload"]
            && (forall i | 0 <= i < |rows| :: Tells(records[i + 1], rows[i]))
            && IsFooter(records[|rows| + 1])
            && IsNumeral(records[|rows| + 1][1]) && ParseDecimal(records[|rows| + 1][1]) == |rows|
  {
    hide *;
    FileDecodes(rows);
    FooterTells(|rows|);
    RecordsTell(rows);
    Between(HEADER_RECORD, RecordsOf(rows), FooterRecord(|rows|));
    HeaderTells();
  }

  lemma HeaderTells()
    ensures HEADER_RECORD == ["event_type", "ledger", "timestamp", "payload"]
  {
  }

  lemma FooterTells(n: nat)
    ensures IsFooter(FooterRecord(n)) && IsNumeral(FooterRecord(n)[1]) && ParseDecimal(FooterRecord(n)[1]) == n
  {
    DecimalParses(n);
    hide Decimal, ParseDecimal, IsNumeral;
  }

  lemma RecordsTell(rows: seq<EventRow>)
    ensures |RecordsOf(rows)| == |rows|
    ensures forall i | 0 <= i < |rows| :: Tells(RecordsOf(rows)[i], rows[i])
  {
    NoRowIsFooter(rows);
    hide RecordOf, RecordsOf, Tells;
    forall i | 0 <= i < |rows| ensures Tells(RecordsOf(rows)[i], rows[i]) {
      RecordTells(rows[i]);
    }
  }

  lemma Between<T>(first: T, middle: seq<T>, last: T)
    ensures var all := [first] + middle + [last];
            && |all| == |middle| + 2 && all[0] == first && all[|middle| + 1] == last
            && forall i | 0 <= i < |middle| :: all[i + 1] == middle[i]
  {
  }

  lemma {:induction false} NoRowIsFooter(rows: seq<EventRow>)
    ensures |RecordsOf(rows)| == |rows|
    ensures forall i | 0 <= i < |rows| :: RecordsOf(rows)[i] == RecordOf(rows[i]) && !IsFooter(RecordsOf(rows)[i])
  {
    hide RecordOf, IsFooter;
    if rows != [] {
      NoRowIsFooter(rows[..|rows| - 1]);
      RowIsNoFooter(rows[|rows| - 1]);
    }
  }

  lemma RowIsNoFooter(row: EventRow)
    ensures !IsFooter(RecordOf(row))
  {
    IntIsPlain(Seconds(row.createdAt));
  }

  /** The footer is the only record of a completed file that looks like one. */
  lemma OnlyLastIsFooter(rows: seq<EventRow>, i: nat)
    requires i < |rows| + 2
    ensures |[HEADER_RECORD] + RecordsOf(rows) + [FooterRecord(|rows|)]| == |rows| + 2
    ensures IsFooter(([HEADER_RECORD] + RecordsOf(rows) + [FooterRecord(|rows|)])[i]) <==> i == |rows| + 1
  {
    NoRowIsFooter(rows);
    assert HEADER_RECORD[3] == "payload" != "";
  }

  // ----- Truncation -----

  /** What a client takes for a complete export. */
  predicate LooksComplete(text: string) {
    var d := Decode(text);
    d.Records? && d.records != [] && IsFooter(d.records[|d.records| - 1])
  }

  /** What has been read stays read: finished records, and the finished fields of the next one. */
  lemma {:induction false} ReadingKeeps(r: Reader, text: string)
    ensures r.records <= ReadAll(r, text).records
    ensures |ReadAll(r, text).records| == |r.records| ==> r.record <= ReadAll(r, text).record
    ensures |ReadAll(r, text).records| > |r.records| ==> r.record <= ReadAll(r, text).records[|r.records|]
    decreases text
  {
    if text != "" {
      ReadingKeeps(Read(r, text[0]), text[1..]);
    }
  }

  /** Reading on to a record's end adds at least one record. */
  lemma EndingAddsRecord(r: Reader, text: string)
    requires text != "" && text[|text| - 1] == '\n'
    requires ReadAll(r, text).mode == FieldStart
    ensures |ReadAll(r, text).records| > |r.records|
  {
    var before := text[..|text| - 1];
    assert text == before + "\n";
    ReadConcat(r, before, "\n");
    ReadOne(ReadAll(r, before), '\n');
    ReadingKeeps(r, before);
  }

  lemma {:induction false} LineEnds(fields: seq<string>)
    requires fields != []
    ensures Line(fields) != "" && Line(fields)[|Line(fields)| - 1] == '\n'
  {
    if |fields| > 1 {
      LineEnds(fields[1..]);
    }
  }

  lemma SentEnds(rows: seq<EventRow>)
    ensures HEADER + Rows(rows) != "" && (HEADER + Rows(rows))[|HEADER + Rows(rows)| - 1] == '\n'
  {
    hide FormatEventCsvRow, Line;
    LineEnds(HEADER_RECORD);
    if rows != [] {
      RowLineEnds(rows[|rows| - 1]);
    }
  }

  lemma RowLineEnds(row: EventRow)
    ensures FormatEventCsvRow(row) != "" && FormatEventCsvRow(row)[|FormatEventCsvRow(row)| - 1] == '\n'
  {
    hide Line, CsvEscapeField;
    LineEnds([CsvEscapeField(row.eventType), IntText(row.ledger), IntText(Seconds(row.createdAt)),
              CsvEscapeField(row.payload)]);
  }

  /** Cut before the footer, the text has no record like a footer: not even a begun one. */
  lemma CutBeforeFooter(rows: seq<EventRow>, kept: string, lost: string)
    requires kept + lost == HEADER + Rows(rows)
    ensures !LooksComplete(kept)
  {
    hide Line, FormatEventCsvRow, RecordsOf, IsFooter, Finish, Rows;
    var mid, all := ReadAll(BLANK, kept), ReadAll(BLANK, kept + lost);
    RowsRead(rows);
    ReadConcat(BLANK, kept, lost);
    ReadingKeeps(mid, lost);
    ThirdField(rows);
    if lost == "" {
      assert kept + lost == kept;
    } else {
      SentEnds(rows);
      assert lost[|lost| - 1] == (kept + lost)[|kept + lost| - 1];
      EndingAddsRecord(mid, lost);
    }
    CutRecords(mid, all.records);
  }

  /** Third fields before the footer are never empty. */
  lemma {:induction false} ThirdField(rows: seq<EventRow>)
    ensures forall i | 0 <= i < |[HEADER_RECORD] + RecordsOf(rows)| ::
              |([HEADER_RECORD] + RecordsOf(rows))[i]| == 4 && ([HEADER_RECORD] + RecordsOf(rows))[i][2] != ""
  {
    NoRowIsFooter(rows);
    forall k | 0 <= k < |rows| ensures IntText(Seconds(rows[k].createdAt)) != "" {
      IntIsPlain(Seconds(rows[k].createdAt));
    }
    assert HEADER_RECORD[2] == "timestamp" != "";
  }

  lemma CutRecords(mid: Reader, records: seq<seq<string>>)
    requires forall i | 0 <= i < |records| :: |records[i]| == 4 && records[i][2] != ""
    requires mid.records <= records
    requires (mid.mode == FieldStart && mid.record == [])
            || (|mid.records| < |records| && mid.record <= records[|mid.records|])
    ensures var r := Finish(mid); r.mode == FieldStart && r.records != [] ==> !IsFooter(r.records[|r.records| - 1])
  {
    var r := Finish(mid);
    if r != mid && |mid.record| == 3 {
      assert mid.record[2] == records[|mid.records|][2];
    }
  }

  function Commas(text: string): nat {
    if text == "" then 0 else (if text[0] == ',' then 1 else 0) + Commas(text[1..])
  }

  lemma {:induction false} CommasConcat(a: string, b: string)
    ensures Commas(a + b) == Commas(a) + Commas(b)
  {
    if a == "" {
      assert a + b == b;
    } else {
      assert (a + b)[1..] == a[1..] + b;
      CommasConcat(a[1..], b);
    }
  }

  lemma {:induction false} PlainHasNoCommas(text: string)
    requires !HasSpecial(text)
    ensures Commas(text) == 0
  {
    if text != "" {
      assert !IsSpecial(text[0]);
      assert forall i | 0 <= i < |text[1..]| :: text[1..][i] == text[i + 1];
      PlainHasNoCommas(text[1..]);
    }
  }

  /** Without a line feed no record ends, and each finished field took a comma. */
  lemma {:induction false} FieldsNeedCommas(r: Reader, text: string)
    requires '\n' !in text
    ensures |ReadAll(r, text).record| <= |r.record| + Commas(text)
    ensures ReadAll(r, text).records == r.records
    decreases text
  {
    if text != "" {
      FieldsNeedCommas(Read(r, text[0]), text[1..]);
    }
  }

  /** The footer without its line feed. */
  function FooterBody(n: nat): string {
    "__EOF__," + (Decimal(n) + ",,")
  }

  lemma EofCommas()
    ensures Commas("__EOF__,") == 1 && Commas(",,") == 2
  {
    PlainHasNoCommas("__EOF__");
    CommasConcat("__EOF__", ",");
    assert "__EOF__" + "," == "__EOF__,";
  }

  lemma BodyCommas(n: nat)
    ensures '\n' !in FooterBody(n) && Commas(FooterBody(n)) == 3
  {
    assert IntText(n) == Decimal(n);
    IntIsPlain(n);
    EofCommas();
    hide Decimal, Commas;
    PlainHasNoCommas(Decimal(n));
    CommasConcat("__EOF__,", Decimal(n) + ",,");
    CommasConcat(Decimal(n), ",,");
  }

  lemma FooterIsBody(n: nat)
    ensures Footer(n) == FooterBody(n) + "\n"
    ensures '\n' !in FooterBody(n) && Commas(FooterBody(n)) == 3
  {
    hide Decimal, Commas;
    var d := Decimal(n);
    BodyCommas(n);
    assert Line(["", ""]) == ",\n";
    assert FooterRecord(n)[1..][1..] == ["", ""];
    assert Line([d, "", ""]) == d + ("," + ",\n");
    assert Line(FooterRecord(n)) == "__EOF__" + ("," + (d + ("," + ",\n")));
  }

  lemma PrefixLacksComma(n: nat, kept: string, lost: string)
    requires kept + lost == FooterBody(n) && lost != ""
    ensures '\n' !in kept && Commas(kept) <= 2
  {
    BodyCommas(n);
    BodyEnds(n);
    hide FooterBody;
    assert forall i | 0 <= i < |kept| :: kept[i] == (kept + lost)[i];
    CommasConcat(kept, lost);
    assert lost[|lost| - 1] == (kept + lost)[|kept + lost| - 1];
    assert lost == lost[..|lost| - 1] + ",";
    CommasConcat(lost[..|lost| - 1], ",");
  }

  lemma FewFields(mid: Reader, records: seq<seq<string>>)
    requires forall i | 0 <= i < |records| :: |records[i]| == 4 && records[i][2] != ""
    requires mid.records == records && |mid.record| <= 2
    ensures var r := Finish(mid); r.mode == FieldStart && r.records != [] ==> !IsFooter(r.records[|r.records| - 1])
  {
  }

  /** Cut inside the footer, the begun record has too few fields. */
  lemma CutInFooter(rows: seq<EventRow>, kept: string, lost: string)
    requires kept + lost == FooterBody(|rows|) && lost != ""
    ensures !LooksComplete((HEADER + Rows(rows)) + kept)
  {
    PrefixLacksComma(|rows|, kept, lost);
    hide Line, FormatEventCsvRow, FooterBody, ReadAll, Commas, Decimal, RecordOf, RecordsOf, Rows, IsFooter, Finish;
    RowsRead(rows);
    var start := ReadAll(BLANK, HEADER + Rows(rows));
    ReadConcat(BLANK, HEADER + Rows(rows), kept);
    FieldsNeedCommas(start, kept);
    ThirdField(rows);
    FewFields(ReadAll(start, kept), [HEADER_RECORD] + RecordsOf(rows));
  }

  lemma BodyEnds(n: nat)
    ensures FooterBody(n) != "" && FooterBody(n)[|FooterBody(n)| - 1] == ','
  {
  }

  /** A completed file whose last line feed is missing is still complete. */
  lemma WithoutLastFeed(rows: seq<EventRow>, text: string)
    requires text + "\n" == CompleteFile(rows)
    ensures LooksComplete(text)
  {
    hide Line, FormatEventCsvRow;
    var mid := ReadAll(BLANK, text);
    FileDecodes(rows);
    ReadConcat(BLANK, text, "\n");
    ReadOne(mid, '\n');
    var full := Read(mid, '\n');
    assert full == EndRecord(mid);
    assert full.records[|full.records| - 1] == FooterRecord(|rows|);
    assert |mid.record| == 3;
  }

  /** A cut-off download is always noticed: of a completed file's prefixes only the whole one,
      with or without its last line feed, looks complete. */
  lemma TruncationNoticed(rows: seq<EventRow>, cut: nat)
    requires cut <= |CompleteFile(rows)|
    ensures LooksComplete(CompleteFile(rows)[..cut]) <==> cut + 1 >= |CompleteFile(rows)|
  {
    hide Line, FormatEventCsvRow, FooterBody, LooksComplete;
    var file, data := CompleteFile(rows), HEADER + Rows(rows);
    FooterIsBody(|rows|);
    var body := FooterBody(|rows|);
    assert file == (data + body) + "\n";
    if cut < |data| {
      assert file[..cut] == data[..cut];
      CutBeforeFooter(rows, data[..cut], data[cut..]);
    } else if cut + 1 < |file| {
      var k := cut - |data|;
      assert file[..cut] == data + body[..k];
      CutInFooter(rows, body[..k], body[k..]);
    } else if cut + 1 == |file| {
      assert file[..cut] == data + body;
      WithoutLastFeed(rows, file[..cut]);
    } else {
      assert file[..cut] == file;
      WholeFileComplete(rows);
    }
  }

  lemma WholeFileComplete(rows: seq<EventRow>)
    ensures LooksComplete(CompleteFile(rows))
  {
    CompleteFileDecodes(rows);
    OnlyLastIsFooter(rows, |rows| + 1);
  }

  lemma Rejoined(text: string, cut: nat)
    requires cut <= |text|
    ensures text[..cut] + text[cut..] == text
  {
  }

  /** An export the client left early, cut anywhere, never looks complete. */
  lemma AbandonedNoticed(rows: seq<EventRow>, sent: nat, cut: nat)
    requires sent <= |rows| && cut <= |Sent(rows, sent)|
    ensures !LooksComplete(Sent(rows, sent)[..cut])
  {
    hide LooksComplete, Rows, HEADER;
    Rejoined(Sent(rows, sent), cut);
    CutBeforeFooter(rows[..sent], Sent(rows, sent)[..cut], Sent(rows, sent)[cut..]);
  }

  // ----- A strict reader -----

  /** A reader for RFC 4180 section 2 to the letter: only a carriage return and a line feed end a
      record. */
  datatype StrictMode = Lenient(mode: Mode) | AfterReturn

  datatype StrictReader = StrictReader(mode: StrictMode, r: Reader)

  function StrictRead(s: StrictReader, c: char): StrictReader {
    match s.mode
    case AfterReturn =>
      if c == '\n' then StrictReader(Lenient(FieldStart), EndRecord(s.r)) else StrictReader(Lenient(Malformed), s.r)
    case Lenient(mode) =>
      if mode in {FieldStart, Unquoted, QuoteSeen} && c == '\r' then StrictReader(AfterReturn, s.r)
      else if mode in {FieldStart, Unquoted, QuoteSeen} && c == '\n' then StrictReader(Lenient(Malformed), s.r)
      else var next := Read(s.r.(mode := mode), c); StrictReader(Lenient(next.mode), next)
  }

  function StrictReadAll(s: StrictReader, text: string): StrictReader
    decreases text
  {
    if text == "" then s else StrictReadAll(StrictRead(s, text[0]), text[1..])
  }

  function StrictDecode(text: string): Decoded {
    var s := StrictReadAll(StrictReader(Lenient(FieldStart), BLANK), text);
    if s.mode.AfterReturn? then NotCsv
    else
      var r := Finish(s.r.(mode := s.mode.mode));
      if r.mode == FieldStart then Records(r.records) else NotCsv
  }

  lemma {:induction false} MalformedStays(s: StrictReader, text: string)
    requires s.mode == Lenient(Malformed)
    ensures StrictReadAll(s, text).mode == Lenient(Malformed)
    decreases text
  {
    if text != "" {
      MalformedStays(StrictRead(s, text[0]), text[1..]);
    }
  }

  /** Outside quotes, a line feed with no carriage return before it is an error. */
  lemma {:induction false} BareLineFeed(s: StrictReader, line: string, rest: string)
    requires s.mode in {Lenient(FieldStart), Lenient(Unquoted)}
    requires forall i | 0 <= i < |line| :: line[i] !in {'\r', '\n', '\"'}
    ensures StrictReadAll(s, line + ("\n" + rest)).mode == Lenient(Malformed)
    decreases line
  {
    var text := line + ("\n" + rest);
    if line == "" {
      assert text[0] == '\n' && text[1..] == rest;
      MalformedStays(StrictRead(s, '\n'), rest);
    } else {
      assert text[0] == line[0] && text[1..] == line[1..] + ("\n" + rest);
      BareLineFeed(StrictRead(s, line[0]), line[1..], rest);
    }
  }

  lemma {:induction false} PlainLine(fields: seq<string>) returns (line: string)
    requires fields != [] && forall k | 0 <= k < |fields| :: !HasSpecial(fields[k])
    ensures Line(fields) == line + "\n" && forall i | 0 <= i < |line| :: line[i] !in {'\r', '\n', '\"'}
  {
    assert forall i | 0 <= i < |fields[0]| :: !IsSpecial(fields[0][i]);
    if |fields| == 1 {
      line := fields[0];
    } else {
      var rest := PlainLine(fields[1..]);
      line := fields[0] + ("," + rest);
      assert Line(fields) == fields[0] + ("," + (rest + "\n")) == line + "\n";
    }
  }

  lemma HeaderLine() returns (line: string)
    ensures HEADER == line + "\n" && forall i | 0 <= i < |line| :: line[i] !in {'\r', '\n', '\"'}
  {
    hide Line;
    assert forall k | 0 <= k < 4 :: forall i | 0 <= i < |HEADER_RECORD[k]| :: !IsSpecial(HEADER_RECORD[k][i]);
    line := PlainLine(HEADER_RECORD);
  }

  lemma RefusedAfter(line: string, rest: string)
    requires forall i | 0 <= i < |line| :: line[i] !in {'\r', '\n', '\"'}
    ensures StrictDecode(line + ("\n" + rest)) == NotCsv
  {
    BareLineFeed(StrictReader(Lenient(FieldStart), BLANK), line, rest);
    hide StrictReadAll;
  }

  /** No complete file is one for the strict reader: its header already ends in a bare line feed. */
  lemma StrictReaderRefuses(rows: seq<EventRow>)
    ensures StrictDecode(CompleteFile(rows)) == NotCsv
  {
    hide HEADER, Rows, Footer, StrictDecode;
    var line := HeaderLine();
    var rest := Rows(rows) + Footer(|rows|);
    assert CompleteFile(rows) == line + ("\n" + rest);
    RefusedAfter(line, rest);
  }

  lemma {:induction false} StrictAsLenient(s: StrictReader, line: string)
    requires s.mode in {Lenient(FieldStart), Lenient(Unquoted)} && s.r.mode == s.mode.mode
    requires forall i | 0 <= i < |line| :: line[i] !in {'\r', '\n', '\"'}
    ensures var r := ReadAll(s.r, line);
            StrictReadAll(s, line) == StrictReader(Lenient(r.mode), r) && r.mode in {FieldStart, Unquoted}
    decreases line
  {
    if line != "" {
      StrictAsLenient(StrictRead(s, line[0]), line[1..]);
    }
  }

  lemma {:induction false} StrictConcat(s: StrictReader, a: string, b: string)
    ensures StrictReadAll(s, a + b) == StrictReadAll(StrictReadAll(s, a), b)
    decreases a
  {
    if a == "" {
      assert a + b == b;
    } else {
      assert (a + b)[1..] == a[1..] + b;
      StrictConcat(StrictRead(s, a[0]), a[1..], b);
    }
  }

  lemma TwoMore(s: StrictReader, b: char, c: char)
    ensures StrictReadAll(s, [b, c]) == StrictRead(StrictRead(s, b), c)
  {
    assert [b, c][1..] == [c] && [c][1..] == "";
    assert StrictReadAll(StrictRead(s, b), [c]) == StrictReadAll(StrictRead(StrictRead(s, b), c), "");
  }

  /** It does take a line that ends as it should, and a carriage return alone does not end one. */
  lemma StrictReaderTakes(fields: seq<string>) returns (line: string)
    requires fields != [] && forall k | 0 <= k < |fields| :: !HasSpecial(fields[k])
    ensures Line(fields) == line + "\n"
    ensures StrictDecode(line + "\r\n") == Records([fields])
    ensures forall c: char | c != '\n' :: StrictDecode(line + ['\r', c]) == NotCsv
  {
    line := PlainLine(fields);
    var start := StrictReader(Lenient(FieldStart), BLANK);
    PlainLineRead(BLANK, fields);
    ReadConcat(BLANK, line, "\n");
    ReadOne(ReadAll(BLANK, line), '\n');
    StrictAsLenient(start, line);
    hide ReadAll, Line, HasSpecial;
    var mid := StrictReadAll(start, line);
    forall c: char ensures StrictReadAll(start, line + ['\r', c]) == StrictRead(StrictReader(AfterReturn, mid.r), c) {
      StrictConcat(start, line, ['\r', c]);
      TwoMore(mid, '\r', c);
    }
    assert "\r\n" == ['\r', '\n'];
    hide StrictReadAll;
  }
}
