/** The stored text format of the reading list and its two readers.

    Both front ends write the same text: the header line
    `id,date,time,systolic,diastolic,heartRate`, then one comma-separated
    line per reading in list order, every line ended by a newline, with a
    falsy heart rate written as an empty field. They read it differently:
    the page skips lines with fewer than five fields and replaces a falsy id
    by the load time plus the line number; the logger turns every line after
    the header into a record and keeps the id exactly as parsed. */
module Codec {
  import opened JsStrings
  import opened JsNumbers
  import opened Records

  const Header: string := "id,date,time,systolic,diastolic,heartRate"

  // ---------------------------------------------------------------------
  // Writing

  /** `${r.heartRate || ''}`: null, 0 and NaN all write as an empty field. */
  function RateText(h: Option<Num>): string {
    if h.Some? && Truthy(h.value) then NumToString(h.value) else ""
  }

  function Fields(r: Reading): seq<string> {
    [NumToString(r.id), r.date, SlotText(r.time),
     NumToString(r.systolic), NumToString(r.diastolic), RateText(r.heartRate)]
  }

  function Row(r: Reading): string {
    Join(Fields(r), ',')
  }

  function Rows(data: seq<Reading>): (rows: seq<string>)
    ensures |rows| == |data|
    ensures forall k :: 0 <= k < |data| ==> rows[k] == Row(data[k])
  {
    if |data| == 0 then [] else [Row(data[0])] + Rows(data[1..])
  }

  /** generateCSV / saveData: the header first, and a final newline. */
  function Serialize(data: seq<Reading>): (t: string)
    ensures |t| > |Header| && t[..|Header|] == Header
    ensures t[|t| - 1] == '\n'
  {
    var j := Join([Header] + Rows(data), '\n');
    JoinStartsWithFirst([Header] + Rows(data), '\n');
    j + "\n"
  }

  // ---------------------------------------------------------------------
  // Reading

  /** The lines the readers work on: the trimmed text split at newlines. */
  function Lines(text: string): seq<string> {
    Split(Trim(text), '\n')
  }

  /** `v[5] ? parseInt(v[5]) : null`: a missing or empty sixth field is null. */
  function RateField(v: seq<string>): (h: Option<Num>)
    ensures h.None? <==> |v| <= 5 || v[5] == ""
  {
    if |v| > 5 && v[5] != "" then Some(ParseInt(v[5])) else None
  }

  /** The page's record for the fields of one line: a falsy id is replaced
      by `fallbackId`. */
  function PageRecord(v: seq<string>, fallbackId: int): (r: Reading)
    requires |v| >= 5
    ensures Truthy(ParseInt(v[0])) ==> r.id == ParseInt(v[0])
    ensures !Truthy(ParseInt(v[0])) ==> r.id == Int(fallbackId)
    ensures fallbackId != 0 ==> Truthy(r.id)
    ensures r.date == v[1] && SlotText(r.time) == v[2]
    ensures r.systolic == ParseInt(v[3]) && r.diastolic == ParseInt(v[4])
    ensures r.heartRate.None? <==> |v| <= 5 || v[5] == ""
  {
    var id := ParseInt(v[0]);
    Reading(if Truthy(id) then id else Int(fallbackId), v[1], SlotOf(v[2]),
            ParseInt(v[3]), ParseInt(v[4]), RateField(v))
  }

  /** A line with at least the five required fields. */
  predicate Wide(line: string) {
    |Split(line, ',')| >= 5
  }

  /** The page's record for one line with the five required fields. */
  function LineRecord(line: string, fallbackId: int): (r: Reading)
    requires Wide(line)
    ensures fallbackId != 0 ==> Truthy(r.id)
    ensures r.date == Split(line, ',')[1] && SlotText(r.time) == Split(line, ',')[2]
  {
    PageRecord(Split(line, ','), fallbackId)
  }

  /** The page's records for the lines after the header, the first of
      them being line number `firstLine`: lines with fewer than five fields
      are skipped, and the others keep their line number as fallback id. */
  function PageRows(lines: seq<string>, firstLine: int): (data: seq<Reading>)
    requires firstLine > 0
    ensures |data| <= |lines|
    ensures forall k :: 0 <= k < |data| ==> Truthy(data[k].id)
  {
    if |lines| == 0 then []
    else if Wide(lines[0]) then
      [LineRecord(lines[0], firstLine)] + PageRows(lines[1..], firstLine + 1)
    else PageRows(lines[1..], firstLine + 1)
  }

  /** The page reads the lines one by one: the readings of two runs of
      lines are those of the first run followed by those of the second,
      numbered on from where the first run ended. */
  lemma {:induction false} PageRowsAppend(a: seq<string>, b: seq<string>, firstLine: int)
    requires firstLine > 0
    ensures PageRows(a + b, firstLine) == PageRows(a, firstLine) + PageRows(b, firstLine + |a|)
  {
    if |a| > 0 {
      var ab := a + b;
      assert ab[0] == a[0] && ab[1..] == a[1..] + b;
      PageRowsAppend(a[1..], b, firstLine + 1);
    } else {
      assert a + b == b;
    }
  }

  /** One line gives its reading, numbered by its line number, exactly when
      it has five fields. */
  lemma PageRowsSingle(line: string, firstLine: int)
    requires firstLine > 0
    ensures PageRows([line], firstLine) ==
      if Wide(line) then [LineRecord(line, firstLine)] else []
  {
    assert [line][1..] == [];
  }

  /** Every line has the five required fields. */
  predicate AllWide(lines: seq<string>) {
    |lines| == 0 || (Wide(lines[0]) && AllWide(lines[1..]))
  }

  /** The reading a line gives, if it has the five required fields. */
  function ReadLine(line: string, fallbackId: int): (o: Option<Reading>)
    ensures o.Some? <==> Wide(line)
  {
    if Wide(line) then Some(LineRecord(line, fallbackId)) else None
  }

  /** Line k gives reading k, numbered `firstLine + k`, for every k. */
  predicate ReadInOrder(lines: seq<string>, firstLine: int)
    requires firstLine > 0
  {
    && |PageRows(lines, firstLine)| == |lines|
    && forall k :: 0 <= k < |lines| ==>
         Some(PageRows(lines, firstLine)[k]) == ReadLine(lines[k], firstLine + k)
  }

  /** When every line has five fields, the k-th line gives the k-th
      reading, with line number `firstLine + k` as its fallback id. */
  lemma WideLinesAreRead(lines: seq<string>, firstLine: int)
    requires firstLine > 0 && AllWide(lines)
    ensures |PageRows(lines, firstLine)| == |lines|
    ensures forall k :: 0 <= k < |lines| ==>
      Some(PageRows(lines, firstLine)[k]) == ReadLine(lines[k], firstLine + k)
  {
    WideLinesInOrder(lines, firstLine);
  }

  /** WideLinesAreRead by induction on the lines, one wide line at a time. */
  lemma {:induction false} WideLinesInOrder(lines: seq<string>, firstLine: int)
    requires firstLine > 0 && AllWide(lines)
    ensures ReadInOrder(lines, firstLine)
  {
    if |lines| > 0 {
      WideLinesInOrder(lines[1..], firstLine + 1);
      WideStep(lines, firstLine);
    }
  }

  /** The inductive step: after a wide first line, lines read in order
      stay read in order. */
  lemma WideStep(lines: seq<string>, firstLine: int)
    requires firstLine > 0 && |lines| > 0 && Wide(lines[0])
    requires ReadInOrder(lines[1..], firstLine + 1)
    ensures ReadInOrder(lines, firstLine)
  {
    WideHeadIsRead(lines, firstLine);
    RecordsShift(PageRows(lines, firstLine), PageRows(lines[1..], firstLine + 1),
                 lines, firstLine);
  }

  /** Readings whose first is line 0's and whose others are, one place on,
      those of the later lines, are line by line the lines' readings. */
  lemma RecordsShift(r: seq<Reading>, rest: seq<Reading>, lines: seq<string>, firstLine: int)
    requires |lines| > 0 && |r| == |lines| && r[1..] == rest
    requires Some(r[0]) == ReadLine(lines[0], firstLine)
    requires forall k :: 0 <= k < |lines[1..]| ==>
      Some(rest[k]) == ReadLine(lines[1..][k], firstLine + 1 + k)
    ensures forall k :: 0 <= k < |lines| ==> Some(r[k]) == ReadLine(lines[k], firstLine + k)
  {
    forall k | 1 <= k < |lines| ensures Some(r[k]) == ReadLine(lines[k], firstLine + k) {
      assert lines[1..][k - 1] == lines[k];
      assert rest[k - 1] == r[k];
    }
  }

  /** A wide first line gives the first reading; the others follow. */
  lemma WideHeadIsRead(lines: seq<string>, firstLine: int)
    requires firstLine > 0 && |lines| > 0 && Wide(lines[0])
    ensures PageRows(lines, firstLine)
         == [LineRecord(lines[0], firstLine)] + PageRows(lines[1..], firstLine + 1)
    ensures Some(PageRows(lines, firstLine)[0]) == ReadLine(lines[0], firstLine)
    ensures PageRows(lines, firstLine)[1..] == PageRows(lines[1..], firstLine + 1)
  {
    var rest := PageRows(lines[1..], firstLine + 1);
    assert ([LineRecord(lines[0], firstLine)] + rest)[1..] == rest;
  }

  /** parseCSV, with `now` standing for Date.now(). Fewer than two lines
      give no readings; otherwise the first line, the header, is skipped
      and the page reads the lines after it, numbered from `now + 1`.
      There is at most one reading per line after the header, and every
      reading has a truthy id. */
  function ParseCsv(text: string, now: nat): (data: seq<Reading>)
    ensures |Lines(text)| < 2 ==> data == []
    ensures |Lines(text)| >= 2 ==> data == PageRows(Lines(text)[1..], now + 1)
    ensures |data| < |Lines(text)| || data == []
    ensures forall k :: 0 <= k < |data| ==> Truthy(data[k].id)
  {
    var lines := Lines(text);
    if |lines| < 2 then [] else PageRows(lines[1..], now + 1)
  }

  /** Lines with fewer than five fields give no reading. */
  lemma {:induction false} NarrowLinesAreSkipped(lines: seq<string>, firstLine: int)
    requires firstLine > 0
    requires forall j :: 0 <= j < |lines| ==> !Wide(lines[j])
    ensures PageRows(lines, firstLine) == []
  {
    if |lines| > 0 {
      NarrowLinesAreSkipped(lines[1..], firstLine + 1);
    }
  }

  /** The text of field k, where a missing field reads as undefined does
      when converted to text. */
  function FieldText(v: seq<string>, k: nat): string {
    if k < |v| then v[k] else "undefined"
  }

  /** The logger's record for the fields of one line, destructured without
      any check on the number of fields. */
  function LoggerRecord(v: seq<string>): (r: Reading)
    ensures r.id == ParseInt(FieldText(v, 0))
    ensures |v| >= 5 ==> r.date == v[1] && SlotText(r.time) == v[2]
    ensures |v| >= 5 ==> r.systolic == ParseInt(v[3]) && r.diastolic == ParseInt(v[4])
    ensures |v| < 2 ==> r.date == "undefined"
    ensures |v| < 3 ==> SlotText(r.time) == "undefined"
    ensures r.heartRate.None? <==> |v| <= 5 || v[5] == ""
  {
    Reading(ParseInt(FieldText(v, 0)), FieldText(v, 1), SlotOf(FieldText(v, 2)),
            ParseInt(FieldText(v, 3)), ParseInt(FieldText(v, 4)), RateField(v))
  }

  function LoggerRows(lines: seq<string>): (data: seq<Reading>)
    ensures |data| == |lines|
    ensures forall k :: 0 <= k < |lines| ==> data[k] == LoggerRecord(Split(lines[k], ','))
  {
    if |lines| == 0 then []
    else
      var rest := LoggerRows(lines[1..]);
      assert forall k :: 0 < k < |lines| ==> lines[k] == lines[1..][k - 1];
      [LoggerRecord(Split(lines[0], ','))] + rest
  }

  /** loadData's parsing: one record for every line after the header, none
      for header-only text. */
  function LoadData(text: string): (data: seq<Reading>)
    ensures |Lines(text)| < 2 ==> data == []
    ensures |Lines(text)| >= 2 ==> |data| == |Lines(text)| - 1
    ensures |Lines(text)| >= 2 ==> data == LoggerRows(Lines(text)[1..])
  {
    var lines := Lines(text);
    if |lines| < 2 then [] else LoggerRows(lines[1..])
  }

  /** On a wide line with a nonzero id the two readers build the same
      record. */
  lemma RecordsAgree(v: seq<string>, fallbackId: int)
    requires |v| >= 5 && Truthy(ParseInt(v[0]))
    ensures PageRecord(v, fallbackId) == LoggerRecord(v)
  {
  }

  /** A line both readers read the same way: five or more fields and a
      nonzero id. */
  predicate Agreeable(line: string) {
    Wide(line) && Truthy(ParseInt(Split(line, ',')[0]))
  }

  lemma {:induction false} PageRowsAgreeWithLogger(lines: seq<string>, firstLine: int)
    requires firstLine > 0
    requires forall j :: 0 <= j < |lines| ==> Agreeable(lines[j])
    ensures PageRows(lines, firstLine) == LoggerRows(lines)
  {
    if |lines| > 0 {
      PageRowsAgreeWithLogger(lines[1..], firstLine + 1);
      RecordsAgree(Split(lines[0], ','), firstLine);
    }
  }

  lemma AgreeAfterHeader(lines: seq<string>, firstLine: int)
    requires firstLine > 0 && |lines| > 0
    requires forall j :: 1 <= j < |lines| ==> Agreeable(lines[j])
    ensures PageRows(lines[1..], firstLine) == LoggerRows(lines[1..])
  {
    var rest := lines[1..];
    forall j | 0 <= j < |rest| ensures Agreeable(rest[j]) {
      assert rest[j] == lines[j + 1];
    }
    PageRowsAgreeWithLogger(rest, firstLine);
  }

  /** Where every line after the header has the five required fields and a
      nonzero id, the two readers agree. */
  lemma ReadersAgree(text: string, now: nat)
    requires forall j :: 1 <= j < |Lines(text)| ==> Agreeable(Lines(text)[j])
    ensures ParseCsv(text, now) == LoadData(text)
  {
    var lines := Lines(text);
    if |lines| >= 2 {
      AgreeAfterHeader(lines, now + 1);
    }
  }

  // ---------------------------------------------------------------------
  // Round trips

  /** The date and time texts hold neither separator, and the time is a
      canonical slot. */
  predicate Plain(r: Reading) {
    && ',' !in r.date && '\n' !in r.date
    && ',' !in SlotText(r.time) && '\n' !in SlotText(r.time)
    && Canonical(r.time)
  }

  predicate AllPlain(data: seq<Reading>) {
    forall k :: 0 <= k < |data| ==> Plain(data[k])
  }

  /** The heart rate as it comes back from text: falsy values are null. */
  function StoredRate(h: Option<Num>): Option<Num> {
    if h.Some? && Truthy(h.value) then h else None
  }

  /** A reading as the page reads it back after writing it. */
  function PageReadBack(r: Reading, fallbackId: int): Reading {
    r.(id := if Truthy(r.id) then r.id else Int(fallbackId),
       heartRate := StoredRate(r.heartRate))
  }

  /** A reading as the logger reads it back after writing it. */
  function LoggerReadBack(r: Reading): Reading {
    r.(heartRate := StoredRate(r.heartRate))
  }

  lemma {:induction false} JoinSnoc(parts: seq<string>, p: string, sep: char)
    requires |parts| >= 1
    ensures Join(parts + [p], sep) == Join(parts, sep) + [sep] + p
  {
    if |parts| > 1 {
      JoinSnoc(parts[1..], p, sep);
      assert (parts + [p])[1..] == parts[1..] + [p];
    }
  }

  lemma {:induction false} JoinAvoids(parts: seq<string>, sep: char, c: char)
    requires c != sep
    requires forall k :: 0 <= k < |parts| ==> c !in parts[k]
    ensures c !in Join(parts, sep)
  {
    if |parts| > 1 {
      JoinAvoids(parts[1..], sep, c);
    }
  }

  lemma {:induction false} JoinStartsWithFirst(parts: seq<string>, sep: char)
    requires |parts| >= 1
    ensures |Join(parts, sep)| >= |parts[0]|
    ensures Join(parts, sep)[..|parts[0]|] == parts[0]
  {
  }

  /** No field of a plain reading holds a comma or a newline. */
  lemma FieldsArePlain(r: Reading)
    requires Plain(r)
    ensures forall k :: 0 <= k < |Fields(r)| ==> ',' !in Fields(r)[k] && '\n' !in Fields(r)[k]
  {
    NumTextIsPlain(r.id);
    NumTextIsPlain(r.systolic);
    NumTextIsPlain(r.diastolic);
    if r.heartRate.Some? && Truthy(r.heartRate.value) {
      NumTextIsPlain(r.heartRate.value);
    }
  }

  /** The last character of a written line is visible: a digit, the last
      letter of NaN, or the comma before an empty heart-rate field. */
  lemma RowEndsVisible(r: Reading)
    ensures |Row(r)| > 0 && !IsSpace(Row(r)[|Row(r)| - 1])
  {
    var f := Fields(r);
    var rate := RateText(r.heartRate);
    assert f == f[..5] + [rate];
    JoinSnoc(f[..5], rate, ',');
    if rate != "" {
      NumTextIsPlain(r.heartRate.value);
    }
  }

  /** A plain reading writes as a single line. */
  lemma RowHasNoNewline(r: Reading)
    requires Plain(r)
    ensures '\n' !in Row(r)
  {
    FieldsArePlain(r);
    JoinAvoids(Fields(r), ',', '\n');
  }

  /** A plain reading writes as one line whose fields split back apart and
      whose last character is visible. */
  lemma RowShape(r: Reading)
    requires Plain(r)
    ensures Split(Row(r), ',') == Fields(r)
    ensures '\n' !in Row(r)
    ensures |Row(r)| > 0 && !IsSpace(Row(r)[|Row(r)| - 1])
  {
    FieldsArePlain(r);
    SplitJoin(Fields(r), ',');
    JoinAvoids(Fields(r), ',', '\n');
    RowEndsVisible(r);
  }

  /** A join ends with the last character of its last part, when that
      part is not empty. */
  lemma JoinEndsWithLast(parts: seq<string>, sep: char)
    requires |parts| >= 1 && |parts[|parts| - 1]| > 0
    ensures var j := Join(parts, sep); var p := parts[|parts| - 1];
      |j| > 0 && j[|j| - 1] == p[|p| - 1]
  {
    var n := |parts| - 1;
    if n > 0 {
      assert parts == parts[..n] + [parts[n]];
      JoinSnoc(parts[..n], parts[n], sep);
    }
  }

  /** The header is one line that starts and ends with a letter. */
  lemma HeaderIsPlain()
    ensures '\n' !in Header
    ensures !IsSpace(Header[0]) && !IsSpace(Header[|Header| - 1])
  {
  }

  /** No line of written text holds a newline. */
  lemma LinesHaveNoNewline(data: seq<Reading>)
    requires AllPlain(data)
    ensures forall k :: 0 <= k < |[Header] + Rows(data)| ==> '\n' !in ([Header] + Rows(data))[k]
  {
    var parts := [Header] + Rows(data);
    HeaderIsPlain();
    forall k | 1 <= k < |parts| ensures '\n' !in parts[k] {
      RowHasNoNewline(data[k - 1]);
    }
  }

  /** The joined lines start with the header's first letter. */
  lemma JoinedLinesStartVisible(data: seq<Reading>)
    ensures var j := Join([Header] + Rows(data), '\n');
      |j| > 0 && !IsSpace(j[0])
  {
    HeaderIsPlain();
    JoinStartsWithFirst([Header] + Rows(data), '\n');
  }

  /** The joined lines end with a visible character: the last letter of the
      header, or the last character of the last reading's line. */
  lemma JoinedLinesEndVisible(data: seq<Reading>)
    requires AllPlain(data)
    ensures var j := Join([Header] + Rows(data), '\n');
      |j| > 0 && !IsSpace(j[|j| - 1])
  {
    var parts := [Header] + Rows(data);
    HeaderIsPlain();
    if |data| > 0 {
      var last := data[|data| - 1];
      RowShape(last);
      assert parts[|parts| - 1] == Row(last);
      JoinEndsWithLast(parts, '\n');
    }
  }

  /** The lines of written text are the header and one line per reading. */
  lemma SerializedLines(data: seq<Reading>)
    requires AllPlain(data)
    ensures Lines(Serialize(data)) == [Header] + Rows(data)
  {
    LinesHaveNoNewline(data);
    SplitJoin([Header] + Rows(data), '\n');
    JoinedLinesStartVisible(data);
    JoinedLinesEndVisible(data);
    TrimDropsFinalNewline(Join([Header] + Rows(data), '\n'));
  }

  /** The written heart-rate field reads back as the stored rate: a falsy
      heart rate comes back as null. */
  lemma RateFieldParsesBack(r: Reading)
    ensures RateField(Fields(r)) == StoredRate(r.heartRate)
  {
    var h := r.heartRate;
    if h.Some? && Truthy(h.value) {
      NumTextIsPlain(h.value);
      ParseIntRoundTrip(h.value);
    }
  }

  /** The written fields parse back to the reading's values. */
  lemma FieldsParseBack(r: Reading)
    ensures |Fields(r)| == 6
    ensures ParseInt(Fields(r)[0]) == r.id
    ensures ParseInt(Fields(r)[3]) == r.systolic
    ensures ParseInt(Fields(r)[4]) == r.diastolic
    ensures RateField(Fields(r)) == StoredRate(r.heartRate)
  {
    ParseIntRoundTrip(r.id);
    ParseIntRoundTrip(r.systolic);
    ParseIntRoundTrip(r.diastolic);
    RateFieldParsesBack(r);
  }

  /** A reading's written fields read back as the page's read-back
      record. */
  lemma PageRecordOfFields(r: Reading, fallbackId: int)
    requires Canonical(r.time)
    ensures |Fields(r)| >= 5
    ensures PageRecord(Fields(r), fallbackId) == PageReadBack(r, fallbackId)
  {
    FieldsParseBack(r);
    var p := PageRecord(Fields(r), fallbackId);
    assert p.id == PageReadBack(r, fallbackId).id;
    assert p.time == r.time;
  }

  /** The same for the logger's reader. */
  lemma LoggerRecordOfFields(r: Reading)
    requires Canonical(r.time)
    ensures LoggerRecord(Fields(r)) == LoggerReadBack(r)
  {
    FieldsParseBack(r);
    var p := LoggerRecord(Fields(r));
    assert p.id == r.id;
    assert p.date == r.date;
    assert p.time == r.time;
  }

  /** One line of written text reads back as the page's read-back record. */
  lemma PageRecordOfRow(r: Reading, fallbackId: int)
    requires Plain(r)
    ensures Wide(Row(r))
    ensures PageRecord(Split(Row(r), ','), fallbackId) == PageReadBack(r, fallbackId)
  {
    RowShape(r);
    PageRecordOfFields(r, fallbackId);
  }

  /** One line of written text reads back as the logger's read-back record. */
  lemma LoggerRecordOfRow(r: Reading)
    requires Plain(r)
    ensures LoggerRecord(Split(Row(r), ',')) == LoggerReadBack(r)
  {
    RowShape(r);
    LoggerRecordOfFields(r);
  }

  /** What the page reads back from the lines of `data`, the first of
      them being line number `firstLine`. */
  function PageReadBacks(data: seq<Reading>, firstLine: int): (back: seq<Reading>)
    ensures |back| == |data|
    ensures forall k :: 0 <= k < |data| ==> back[k] == PageReadBack(data[k], firstLine + k)
  {
    if |data| == 0 then [] else [PageReadBack(data[0], firstLine)] + PageReadBacks(data[1..], firstLine + 1)
  }

  /** What the logger reads back from the lines of `data`. */
  function LoggerReadBacks(data: seq<Reading>): (back: seq<Reading>)
    ensures |back| == |data|
    ensures forall k :: 0 <= k < |data| ==> back[k] == LoggerReadBack(data[k])
  {
    if |data| == 0 then [] else [LoggerReadBack(data[0])] + LoggerReadBacks(data[1..])
  }

  lemma {:induction false} PageRowsOfRows(data: seq<Reading>, firstLine: int)
    requires AllPlain(data) && firstLine > 0
    ensures PageRows(Rows(data), firstLine) == PageReadBacks(data, firstLine)
  {
    if |data| > 0 {
      PageRowsOfRows(data[1..], firstLine + 1);
      PageRecordOfRow(data[0], firstLine);
      assert Rows(data)[1..] == Rows(data[1..]);
    }
  }

  /** Text whose lines are the header and the written readings reads back
      on the page as the read-back records. */
  lemma PageReadsLines(text: string, data: seq<Reading>, now: nat)
    requires AllPlain(data) && Lines(text) == [Header] + Rows(data)
    ensures ParseCsv(text, now) == PageReadBacks(data, now + 1)
  {
    assert Lines(text)[1..] == Rows(data);
    PageRowsOfRows(data, now + 1);
  }

  /** The same for the logger. */
  lemma LoggerReadsLines(text: string, data: seq<Reading>)
    requires AllPlain(data) && Lines(text) == [Header] + Rows(data)
    ensures LoadData(text) == LoggerReadBacks(data)
  {
    assert Lines(text)[1..] == Rows(data);
    LoggerRowsOfRows(data);
  }

  lemma PageRoundTripList(data: seq<Reading>, now: nat)
    requires AllPlain(data)
    ensures ParseCsv(Serialize(data), now) == PageReadBacks(data, now + 1)
  {
    SerializedLines(data);
    PageReadsLines(Serialize(data), data, now);
  }

  lemma LoggerRoundTripList(data: seq<Reading>)
    requires AllPlain(data)
    ensures LoadData(Serialize(data)) == LoggerReadBacks(data)
  {
    SerializedLines(data);
    LoggerReadsLines(Serialize(data), data);
  }

  /** Writing then reading on the page gives back every reading, in order,
      except that a falsy heart rate returns as null and a falsy id is
      replaced by the load time plus the reading's line number. */
  lemma PageRoundTrip(data: seq<Reading>, now: nat)
    requires AllPlain(data)
    ensures var back := ParseCsv(Serialize(data), now);
      && |back| == |data|
      && forall k :: 0 <= k < |data| ==> back[k] == PageReadBack(data[k], now + k + 1)
  {
    PageRoundTripList(data, now);
  }

  /** The page's read-back list is the original list exactly when every id
      is a nonzero integer and every heart rate is null or a nonzero
      integer. */
  lemma PageReadBacksIdentity(data: seq<Reading>, firstLine: int)
    requires firstLine > 0
    ensures PageReadBacks(data, firstLine) == data <==>
      forall k :: 0 <= k < |data| ==>
        Truthy(data[k].id) && StoredRate(data[k].heartRate) == data[k].heartRate
  {
    var back := PageReadBacks(data, firstLine);
    if back == data {
      forall k | 0 <= k < |data|
        ensures Truthy(data[k].id) && StoredRate(data[k].heartRate) == data[k].heartRate
      {
        assert back[k] == PageReadBack(data[k], firstLine + k);
      }
    }
  }

  /** The page's reader inverts the writer exactly when every id is a
      nonzero integer and every heart rate is null or a nonzero integer. */
  lemma PageRoundTripExact(data: seq<Reading>, now: nat)
    requires AllPlain(data)
    ensures ParseCsv(Serialize(data), now) == data <==>
      forall k :: 0 <= k < |data| ==>
        Truthy(data[k].id) && StoredRate(data[k].heartRate) == data[k].heartRate
  {
    PageRoundTripList(data, now);
    PageReadBacksIdentity(data, now + 1);
  }

  lemma LoggerRowsCons(lines: seq<string>)
    requires |lines| > 0
    ensures LoggerRows(lines) == [LoggerRecord(Split(lines[0], ','))] + LoggerRows(lines[1..])
  {
  }

  lemma {:induction false} LoggerRowsOfRows(data: seq<Reading>)
    requires AllPlain(data)
    ensures LoggerRows(Rows(data)) == LoggerReadBacks(data)
  {
    if |data| > 0 {
      LoggerRowsOfRows(data[1..]);
      LoggerRecordOfRow(data[0]);
      LoggerRowsCons(Rows(data));
      assert Rows(data)[1..] == Rows(data[1..]);
    }
  }

  /** Writing then reading in the logger gives back every reading, in
      order, except that a falsy heart rate returns as null; ids of any
      kind, NaN included, survive. */
  lemma LoggerRoundTrip(data: seq<Reading>)
    requires AllPlain(data)
    ensures var back := LoadData(Serialize(data));
      && |back| == |data|
      && forall k :: 0 <= k < |data| ==> back[k] == LoggerReadBack(data[k])
  {
    LoggerRoundTripList(data);
  }

  lemma LoggerReadBacksIdentity(data: seq<Reading>)
    ensures LoggerReadBacks(data) == data <==>
      forall k :: 0 <= k < |data| ==> StoredRate(data[k].heartRate) == data[k].heartRate
  {
    var back := LoggerReadBacks(data);
    if back == data {
      forall k | 0 <= k < |data| ensures StoredRate(data[k].heartRate) == data[k].heartRate {
        assert back[k] == LoggerReadBack(data[k]);
      }
    }
  }

  /** The logger's reader inverts the writer exactly when every heart rate
      is null or a nonzero integer. */
  lemma LoggerRoundTripExact(data: seq<Reading>)
    requires AllPlain(data)
    ensures LoadData(Serialize(data)) == data <==>
      forall k :: 0 <= k < |data| ==> StoredRate(data[k].heartRate) == data[k].heartRate
  {
    LoggerRoundTripList(data);
    LoggerReadBacksIdentity(data);
  }

  /** A stored heart rate of 0 is written as an empty field and comes back
      as null from both readers, so neither round trip is the identity. */
  lemma ZeroRateComesBackNull(r: Reading, now: nat)
    requires Plain(r) && Truthy(r.id) && r.heartRate == Some(Int(0))
    ensures ParseCsv(Serialize([r]), now) == [r.(heartRate := None)] != [r]
    ensures LoadData(Serialize([r])) == [r.(heartRate := None)] != [r]
  {
    PageRoundTripList([r], now);
    LoggerRoundTripList([r]);
  }

  /** The page replaces an id of 0 by the load time plus the line number,
      where the logger keeps it. */
  lemma ZeroIdIsReplaced(r: Reading, now: nat)
    requires Plain(r) && r.id == Int(0) && StoredRate(r.heartRate) == r.heartRate
    ensures ParseCsv(Serialize([r]), now) == [r.(id := Int(now + 1))] != [r]
    ensures LoadData(Serialize([r])) == [r]
  {
    PageRoundTripList([r], now);
    LoggerRoundTripList([r]);
  }
}
