/** The CSV report, and a reader for section 2 of RFC 4180 (with a line feed as record end) that is
    written from the standard and knows nothing of the writer. */
module CsvReport {
  import opened Prelude
  import opened Decimal
  import opened ScanPipeline

  // ----- The writer's escaping -----

  predicate Special(c: char) {
    c == ',' || c == '"' || c == '\n' || c == '\r'
  }

  predicate Plain(s: string) {
    forall i | 0 <= i < |s| :: !Special(s[i])
  }

  function Doubled(s: string): string {
    if s == "" then "" else (if s[0] == '"' then "\"\"" else [s[0]]) + Doubled(s[1..])
  }

  function Escaped(s: string): string {
    if Plain(s) then s else "\"" + Doubled(s) + "\""
  }

  function Quotes(s: string): nat {
    if s == "" then 0 else Quotes(s[1..]) + if s[0] == '"' then 1 else 0
  }

  /** A field with a comma, a quote or a line break is put between quotes, with one more quote for each
      quote in it; any other field is left as it is. */
  lemma {:induction false} EscapedForm(s: string)
    ensures var e := Escaped(s);
      if exists i | 0 <= i < |s| :: s[i] == ',' || s[i] == '"' || s[i] == '\n' || s[i] == '\r'
      then |e| == |s| + Quotes(s) + 2 && e[0] == '"' && e[|e| - 1] == '"'
      else e == s
  {
    DoubledLength(s);
    if i :| 0 <= i < |s| && (s[i] == ',' || s[i] == '"' || s[i] == '\n' || s[i] == '\r') {
      assert Special(s[i]);
    }
  }

  lemma {:induction false} DoubledLength(s: string)
    ensures |Doubled(s)| == |s| + Quotes(s)
  {
    if s != "" {
      DoubledLength(s[1..]);
    }
  }

  method EscapeCsvField(s: string) returns (out: string)
    ensures out == Escaped(s)
  {
    if Plain(s) {
      return s;
    }
    out := "\"";
    for i := 0 to |s|
      invariant out + Doubled(s[i..]) == "\"" + Doubled(s)
    {
      if s[i] == '"' {
        out := out + ['"'];
      }
      out := out + [s[i]];
      assert s[i..][1..] == s[i + 1..];
    }
    out := out + "\"";
  }

  // ----- The reader -----

  datatype Read<T> = Read(value: T, rest: string)

  function ReadQuoted(s: string): (r: Option<Read<string>>)
    ensures r.Some? ==> |r.value.rest| < |s|
  {
    if s == "" then None
    else if s[0] != '"' then Prefixed(s[0], ReadQuoted(s[1..]))
    else if |s| > 1 && s[1] == '"' then Prefixed('"', ReadQuoted(s[2..]))
    else Some(Read("", s[1..]))
  }

  function ReadBare(s: string): (r: Option<Read<string>>)
    ensures r.Some? ==> |r.value.rest| <= |s|
  {
    if s == "" || s[0] == ',' || s[0] == '\n' then Some(Read("", s))
    else if Special(s[0]) then None
    else Prefixed(s[0], ReadBare(s[1..]))
  }

  function Prefixed(c: char, r: Option<Read<string>>): Option<Read<string>> {
    if r.None? then None else Some(Read([c] + r.value.value, r.value.rest))
  }

  function ReadField(s: string): (r: Option<Read<string>>)
    ensures r.Some? ==> |r.value.rest| <= |s|
  {
    if s != "" && s[0] == '"' then ReadQuoted(s[1..]) else ReadBare(s)
  }

  function ReadRecord(s: string): (r: Option<Read<seq<string>>>)
    ensures r.Some? ==> |r.value.rest| <= |s| && (s != "" ==> |r.value.rest| < |s|)
    decreases |s|
  {
    var f := ReadField(s);
    if f.None? then None
    else
      var rest := f.value.rest;
      if rest == "" then Some(Read([f.value.value], ""))
      else if rest[0] == '\n' then Some(Read([f.value.value], rest[1..]))
      else if rest[0] != ',' then None
      else
        var more := ReadRecord(rest[1..]);
        if more.None? then None
        else Some(Read([f.value.value] + more.value.value, more.value.rest))
  }

  function ReadCsv(s: string): Option<seq<seq<string>>>
    decreases |s|
  {
    if s == "" then Some([])
    else
      var r := ReadRecord(s);
      if r.None? then None
      else
        var more := ReadCsv(r.value.rest);
        if more.None? then None else Some([r.value.value] + more.value)
  }

  // ----- Reading what was written -----

  predicate EndsField(t: string) {
    t == "" || t[0] == ',' || t[0] == '\n'
  }

  lemma {:induction false} ReadDoubled(s: string, t: string)
    requires EndsField(t)
    ensures ReadQuoted(Doubled(s) + "\"" + t) == Some(Read(s, t))
  {
    var text := Doubled(s) + "\"" + t;
    if s == "" {
      assert text[1..] == t;
    } else {
      ReadDoubled(s[1..], t);
      var rest := Doubled(s[1..]) + "\"" + t;
      assert [s[0]] + s[1..] == s;
      if s[0] == '"' {
        assert text[2..] == rest;
      } else {
        assert text[1..] == rest;
      }
    }
  }

  lemma {:induction false} ReadPlain(s: string, t: string)
    requires Plain(s) && EndsField(t)
    ensures ReadBare(s + t) == Some(Read(s, t))
  {
    if s == "" {
      assert s + t == t;
    } else {
      ReadPlain(s[1..], t);
      assert (s + t)[1..] == s[1..] + t;
      assert [s[0]] + s[1..] == s;
    }
  }

  lemma {:induction false} ReadEscaped(s: string, t: string)
    requires EndsField(t)
    ensures ReadField(Escaped(s) + t) == Some(Read(s, t))
  {
    hide ReadQuoted, ReadBare, Doubled;
    if Plain(s) {
      ReadPlain(s, t);
      assert s != "" ==> (s + t)[0] == s[0];
    } else {
      ReadDoubled(s, t);
      assert (Escaped(s) + t)[1..] == Doubled(s) + "\"" + t;
    }
  }

  /** A field, a comma, and the rest of the record. */
  function Cell(field: string, rest: string): string {
    field + "," + rest
  }

  /** Escaped fields between commas, and the line feed. */
  function RecordText(fields: seq<string>): string
    requires fields != []
  {
    if |fields| == 1 then Escaped(fields[0]) + "\n"
    else Cell(Escaped(fields[0]), RecordText(fields[1..]))
  }

  lemma {:induction false} ReadLastField(s: string, t: string)
    ensures ReadRecord(Escaped(s) + "\n" + t) == Some(Read([s], t))
  {
    ReadEscaped(s, "\n" + t);
    assert Escaped(s) + "\n" + t == Escaped(s) + ("\n" + t);
    assert ("\n" + t)[1..] == t;
  }

  lemma {:induction false} ReadCell(s: string, rest: string, more: Read<seq<string>>)
    requires ReadRecord(rest) == Some(more)
    ensures ReadRecord(Cell(Escaped(s), rest)) == Some(Read([s] + more.value, more.rest))
  {
    ReadEscaped(s, "," + rest);
    assert Cell(Escaped(s), rest) == Escaped(s) + ("," + rest);
    assert ("," + rest)[1..] == rest;
  }

  lemma {:induction false} ReadRecordText(fields: seq<string>, t: string)
    requires fields != []
    ensures ReadRecord(RecordText(fields) + t) == Some(Read(fields, t))
    decreases |fields|
  {
    hide ReadRecord, Escaped;
    if |fields| == 1 {
      ReadLastField(fields[0], t);
      assert [fields[0]] == fields;
    } else {
      var rest := RecordText(fields[1..]);
      ReadRecordText(fields[1..], t);
      ReadCell(fields[0], rest + t, Read(fields[1..], t));
      assert Cell(Escaped(fields[0]), rest) + t == Cell(Escaped(fields[0]), rest + t);
      assert [fields[0]] + fields[1..] == fields;
    }
  }

  // ----- The report -----

  datatype Row = Row(host: string, port: nat, state: PortState, service: string, version: string, cves: seq<Cve>)

  function StateName(s: PortState): string {
    match s
    case Open => "open"
    case Closed => "closed"
    case Filtered => "filtered"
    case Unknown => "unknown"
  }

  /** How scores are printed: any text without a separator. */
  ghost predicate PrintsPlain(show: real -> string) {
    forall x: real :: Plain(show(x))
  }

  const NO_CVE := Cve("", 0.0)

  /** The entry the writer's loop is left with. */
  function Top(cves: seq<Cve>): Cve {
    if cves == [] then NO_CVE
    else
      var best := Top(cves[..|cves| - 1]);
      if cves[|cves| - 1].cvss > best.cvss then cves[|cves| - 1] else best
  }

  /** It is the first one attaining the maximum score, if any score is positive. */
  lemma {:induction false} TopIsFirstMaximum(cves: seq<Cve>)
    ensures var top := Top(cves);
      && (forall i | 0 <= i < |cves| :: cves[i].cvss <= top.cvss)
      && ((top == NO_CVE && forall i | 0 <= i < |cves| :: cves[i].cvss <= 0.0)
          || (top.cvss > 0.0 && exists k | 0 <= k < |cves| ::
                cves[k] == top && forall j | 0 <= j < k :: cves[j].cvss < top.cvss))
  {
    if cves != [] {
      TopIsFirstMaximum(cves[..|cves| - 1]);
      assert cves[..|cves| - 1] + [cves[|cves| - 1]] == cves;
    }
  }

  const HEADER: seq<string> := ["host", "port", "state", "service", "version", "top_cve", "top_cvss"]

  function Fields(r: Row, show: real -> string): seq<string> {
    var top := Top(r.cves);
    [r.host, Numeral(r.port), StateName(r.state), r.service, r.version, top.id, show(top.cvss)]
  }

  /** "host,port,state,service,version,top_cve,top_cvss" and the line feed. */
  const HEADER_LINE := Cell("host", Cell("port", Cell("state", Cell("service", Cell("version",
    Cell("top_cve", "top_cvss" + "\n"))))))

  function Csv(rows: seq<Row>, show: real -> string): string {
    HEADER_LINE + Lines(rows, show)
  }

  function Lines(rows: seq<Row>, show: real -> string): string {
    if rows == [] then "" else RowText(rows[0], show) + Lines(rows[1..], show)
  }

  /** What the writer streams for one result: numbers and the state go out unescaped. */
  function RowText(r: Row, show: real -> string): string {
    var top := Top(r.cves);
    Cell(Escaped(r.host), Cell(Numeral(r.port), Cell(StateName(r.state), Cell(Escaped(r.service),
      Cell(Escaped(r.version), Cell(Escaped(top.id), show(top.cvss) + "\n"))))))
  }

  method TopCve(cves: seq<Cve>) returns (id: string, cvss: real)
    ensures Cve(id, cvss) == Top(cves)
  {
    id, cvss := "", 0.0;
    for j := 0 to |cves|
      invariant Cve(id, cvss) == Top(cves[..j])
    {
      var c := cves[j];
      if c.cvss > cvss {
        cvss := c.cvss;
        id := c.id;
      }
      assert cves[..j + 1][..j] == cves[..j];
    }
    assert cves[..|cves|] == cves;
  }

  /** Streams one field and the comma after it. */
  method Put(text: string, field: string, ghost rest: string) returns (longer: string)
    ensures longer == text + field + ","
    ensures longer + rest == text + Cell(field, rest)
  {
    longer := text + field + ",";
  }

  method PutRow(text: string, r: Row, show: real -> string) returns (longer: string)
    ensures longer == text + RowText(r, show)
  {
    var id, cvss := TopCve(r.cves);
    var host := EscapeCsvField(r.host);
    var service := EscapeCsvField(r.service);
    var version := EscapeCsvField(r.version);
    var top := EscapeCsvField(id);
    hide Cell, Escaped, Top, Numeral, StateName;
    ghost var r6 := show(cvss) + "\n";
    ghost var r5 := Cell(top, r6);
    ghost var r4 := Cell(version, r5);
    ghost var r3 := Cell(service, r4);
    ghost var r2 := Cell(StateName(r.state), r3);
    ghost var r1 := Cell(Numeral(r.port), r2);
    longer := Put(text, host, r1);
    longer := Put(longer, Numeral(r.port), r2);
    longer := Put(longer, StateName(r.state), r3);
    longer := Put(longer, service, r4);
    longer := Put(longer, version, r5);
    longer := Put(longer, top, r6);
    longer := longer + (show(cvss) + "\n");
  }

  method ToCsv(rows: seq<Row>, show: real -> string) returns (text: string)
    ensures text == Csv(rows, show)
  {
    hide RowText;
    text := HEADER_LINE;
    assert rows[0..] == rows;
    for i := 0 to |rows|
      invariant text + Lines(rows[i..], show) == Csv(rows, show)
    {
      ghost var before := text;
      text := PutRow(text, rows[i], show);
      assert rows[i..][1..] == rows[i + 1..];
      assert before + Lines(rows[i..], show) == text + Lines(rows[i + 1..], show);
    }
  }

  lemma {:induction false} NumeralPlain(n: nat)
    ensures Plain(Numeral(n))
  {
    NumeralRoundTrip(n);
    var s := Numeral(n);
    assert forall i | 0 <= i < |s| :: IsDigit(s[i]);
  }

  lemma {:induction false} RecordOfSeven(f: seq<string>)
    requires |f| == 7
    ensures RecordText(f) == Cell(Escaped(f[0]), Cell(Escaped(f[1]), Cell(Escaped(f[2]), Cell(Escaped(f[3]),
      Cell(Escaped(f[4]), Cell(Escaped(f[5]), Escaped(f[6]) + "\n"))))))
  {
    hide Escaped, Cell;
    RecordTail(f, 5);
    RecordTail(f, 4);
    RecordTail(f, 3);
    RecordTail(f, 2);
    RecordTail(f, 1);
    assert f[0..] == f;
    RecordTail(f, 0);
  }

  lemma {:induction false} RecordTail(f: seq<string>, k: nat)
    requires k + 1 < |f|
    ensures RecordText(f[k..]) == Cell(Escaped(f[k]), RecordText(f[k + 1..]))
    ensures k + 2 == |f| ==> RecordText(f[k + 1..]) == Escaped(f[k + 1]) + "\n"
  {
    assert f[k..][1..] == f[k + 1..];
  }

  lemma {:induction false} RowIsRecord(r: Row, show: real -> string)
    requires PrintsPlain(show)
    ensures RowText(r, show) == RecordText(Fields(r, show))
  {
    hide Cell, RecordText, Top, StateName, Escaped;
    RecordOfSeven(Fields(r, show));
    NumeralPlain(r.port);
    PlainIsUnescaped(Numeral(r.port));
    StatePlain(r.state);
    PlainIsUnescaped(StateName(r.state));
    PlainIsUnescaped(show(Top(r.cves).cvss));
  }

  lemma {:induction false} PlainIsUnescaped(s: string)
    requires Plain(s)
    ensures Escaped(s) == s
  {
  }

  lemma {:induction false} StatePlain(s: PortState)
    ensures Plain(StateName(s))
  {
  }

  function Records(rows: seq<Row>, show: real -> string): seq<seq<string>> {
    if rows == [] then [] else [Fields(rows[0], show)] + Records(rows[1..], show)
  }

  lemma {:induction false} ReadLines(rows: seq<Row>, show: real -> string)
    requires PrintsPlain(show)
    ensures ReadCsv(Lines(rows, show)) == Some(Records(rows, show))
  {
    if rows != [] {
      var r := rows[0];
      RowIsRecord(r, show);
      ReadRecordText(Fields(r, show), Lines(rows[1..], show));
      ReadLines(rows[1..], show);
    }
  }

  lemma {:induction false} HeaderIsRecord()
    ensures HEADER_LINE == RecordText(HEADER)
  {
    hide Escaped, Cell, RecordText;
    RecordOfSeven(HEADER);
    forall i | 0 <= i < 7 ensures Escaped(HEADER[i]) == HEADER[i] {
      assert Plain(HEADER[i]);
      PlainIsUnescaped(HEADER[i]);
    }
  }

  /** Round trip: a standard reader gets back the header and, for each result in order, its seven
      fields with the original strings, whatever characters they hold. */
  lemma {:induction false} CsvRoundTrip(rows: seq<Row>, show: real -> string)
    requires PrintsPlain(show)
    ensures ReadCsv(Csv(rows, show)) == Some([HEADER] + Records(rows, show))
  {
    assert Csv(rows, show) == HEADER_LINE + Lines(rows, show);
    hide Csv, RecordText, Lines, Records, ReadCsv;
    HeaderIsRecord();
    ReadRecordText(HEADER, Lines(rows, show));
    ReadLines(rows, show);
  }

  predicate FirstMaximum(cves: seq<Cve>, k: nat) {
    && k < |cves| && cves[k].cvss > 0.0
    && (forall i | 0 <= i < |cves| :: cves[i].cvss <= cves[k].cvss)
    && forall i | 0 <= i < k :: cves[i].cvss < cves[k].cvss
  }

  lemma {:induction false} TopIsThat(cves: seq<Cve>)
    ensures (forall i | 0 <= i < |cves| :: cves[i].cvss <= 0.0) ==> Top(cves) == Cve("", 0.0)
    ensures forall k: nat :: FirstMaximum(cves, k) ==> Top(cves) == cves[k]
  {
    TopIsFirstMaximum(cves);
    hide Top;
  }

  lemma {:induction false} RecordAt(rows: seq<Row>, show: real -> string, i: nat)
    requires i < |rows|
    ensures |Records(rows, show)| == |rows| && Records(rows, show)[i] == Fields(rows[i], show)
  {
    hide Fields;
    if |rows| > 1 {
      RecordAt(rows[1..], show, if i == 0 then 0 else i - 1);
    }
  }

  /** What any standard reader finds in the report, field by field. */
  lemma {:induction false} ReportReadsBack(rows: seq<Row>, show: real -> string, i: nat)
    requires PrintsPlain(show) && i < |rows|
    ensures var read := ReadCsv(Csv(rows, show)); var r := rows[i];
      && read.Some? && |read.value| == |rows| + 1
      && read.value[0] == ["host", "port", "state", "service", "version", "top_cve", "top_cvss"]
      && var f := read.value[i + 1];
      && |f| == 7 && f[0] == r.host && f[3] == r.service && f[4] == r.version
      && f[1] != "" && AllDigits(f[1]) && Value(f[1]) == r.port && (r.port > 0 ==> f[1][0] != '0')
      && f[2] == (match r.state case Open => "open" case Closed => "closed" case Filtered => "filtered"
                                case Unknown => "unknown")
      && ((forall j | 0 <= j < |r.cves| :: r.cves[j].cvss <= 0.0) ==> f[5] == "" && f[6] == show(0.0))
      && forall k: nat :: FirstMaximum(r.cves, k) ==> f[5] == r.cves[k].id && f[6] == show(r.cves[k].cvss)
  {
    hide ReadCsv, Csv, Records, Top, FirstMaximum, Fields, AllDigits, Value;
    CsvRoundTrip(rows, show);
    RecordAt(rows, show, i);
    assert ([HEADER] + Records(rows, show))[i + 1] == Records(rows, show)[i];
    FieldsInFull(rows[i], show);
  }

  lemma {:induction false} FieldsInFull(r: Row, show: real -> string)
    ensures var f := Fields(r, show);
      && |f| == 7 && f[0] == r.host && f[3] == r.service && f[4] == r.version
      && f[1] != "" && AllDigits(f[1]) && Value(f[1]) == r.port && (r.port > 0 ==> f[1][0] != '0')
      && f[2] == (match r.state case Open => "open" case Closed => "closed" case Filtered => "filtered"
                                case Unknown => "unknown")
      && ((forall j | 0 <= j < |r.cves| :: r.cves[j].cvss <= 0.0) ==> f[5] == "" && f[6] == show(0.0))
      && forall k: nat :: FirstMaximum(r.cves, k) ==> f[5] == r.cves[k].id && f[6] == show(r.cves[k].cvss)
  {
    TopIsThat(r.cves);
    NumeralRoundTrip(r.port);
    NumeralIsCanonical(r.port);
    hide Top, FirstMaximum, Numeral;
  }

  /** Without results it is the header line alone, and it always ends with a line feed. */
  lemma {:induction false} ReportEndsLine(rows: seq<Row>, show: real -> string)
    ensures Csv([], show) == "host" + "," + ("port" + "," + ("state" + "," + ("service" + "," + ("version" + "," +
                               ("top_cve" + "," + ("top_cvss" + "\n"))))))
    ensures var text := Csv(rows, show); text != "" && text[|text| - 1] == '\n'
  {
    LinesEnd([], show);
    LinesEnd(rows, show);
    hide Lines;
  }

  lemma {:induction false} LinesEnd(rows: seq<Row>, show: real -> string)
    ensures Lines(rows, show) == "" || Lines(rows, show)[|Lines(rows, show)| - 1] == '\n'
    ensures Lines([], show) == ""
  {
    if rows != [] {
      LinesEnd(rows[1..], show);
      RowEnds(rows[0], show);
    }
  }

  lemma {:induction false} RowEnds(r: Row, show: real -> string)
    ensures var text := RowText(r, show); text != "" && text[|text| - 1] == '\n'
  {
    hide Escaped, Top, Numeral, StateName;
  }
}
