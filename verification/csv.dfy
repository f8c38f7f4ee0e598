/**
 * The CSV export of the leaderboard (backend/utils/csv.js).  Every field is
 * quoted and its quotes doubled, in the manner of section 2 (rules 5 to 7)
 * of RFC 4180, fields are separated by commas and records by a line feed
 * (not CRLF).  A reader for exactly this format is defined alongside, and
 * reading back what was written recovers the header and every row.
 */
module Csv {
  import opened Common

  /** A row as the encoder sees it: five values, each possibly null. */
  datatype Row = Row(playerName: Option<string>, score: Option<string>, time: Option<string>,
                     moves: Option<string>, matchId: Option<string>)

  const HeaderNames: seq<string> := ["playerName", "score", "time", "moves", "matchId"]

  /** `String(v ?? '')`: a null value is written as the empty string. */
  function Text(v: Option<string>): string {
    if v.Some? then v.value else ""
  }

  /** The cells of a row, in the header's order. */
  function Cells(row: Row): (cells: seq<string>)
    ensures |cells| == |HeaderNames|
  {
    [Text(row.playerName), Text(row.score), Text(row.time), Text(row.moves), Text(row.matchId)]
  }

  // ---------------------------------------------------------------------
  // Writing
  // ---------------------------------------------------------------------

  /** Every `"` doubled. */
  function Double(s: string): (r: string)
    ensures |r| >= |s|
  {
    if |s| == 0 then ""
    else (if s[0] == '"' then "\"\"" else [s[0]]) + Double(s[1..])
  }

  /** A field wrapped in quotes, with its own quotes doubled. */
  function Quote(s: string): (r: string)
    ensures |r| >= 2 && r[0] == '"' && r[|r| - 1] == '"'
  {
    "\"" + Double(s) + "\""
  }

  /** The quoted fields of one record, separated by commas. */
  function EncodeRecord(fields: seq<string>): string {
    if |fields| == 0 then ""
    else if |fields| == 1 then Quote(fields[0])
    else Quote(fields[0]) + "," + EncodeRecord(fields[1..])
  }

  /** Encoded records, separated by line feeds. */
  function EncodeRecords(records: seq<seq<string>>): string {
    if |records| == 0 then ""
    else if |records| == 1 then EncodeRecord(records[0])
    else EncodeRecord(records[0]) + "\n" + EncodeRecords(records[1..])
  }

  /** The header record followed by one record per row. */
  function Records(rows: seq<Row>): (records: seq<seq<string>>)
    ensures |records| == |rows| + 1 && records[0] == HeaderNames
    ensures forall i | 0 <= i < |rows| :: records[i + 1] == Cells(rows[i])
  {
    [HeaderNames] + seq(|rows|, i requires 0 <= i < |rows| => Cells(rows[i]))
  }

  /** `toCsv`. */
  function ToCsv(rows: seq<Row>): (r: string)
    ensures ReadRecords(r) == Some(Records(rows))
    ensures var h := EncodeRecord(HeaderNames); |h| <= |r| && r[..|h|] == h
  {
    ReadRecordsEncodeRecords(Records(rows));
    EncodeRecordsStartsWithFirst(Records(rows));
    EncodeRecords(Records(rows))
  }

  // ---------------------------------------------------------------------
  // Reading
  // ---------------------------------------------------------------------

  /** The body of a quoted field up to its closing quote, with `""` read as `"`, and what follows. */
  function ReadQuoted(s: string): (r: Option<(string, string)>)
    ensures r.Some? ==> |r.value.1| < |s|
    decreases |s|
  {
    if |s| == 0 then None
    else if s[0] == '"' then
      if |s| > 1 && s[1] == '"' then
        match ReadQuoted(s[2..])
        case None => None
        case Some((v, rest)) => Some(("\"" + v, rest))
      else Some(("", s[1..]))
    else
      match ReadQuoted(s[1..])
      case None => None
      case Some((v, rest)) => Some(([s[0]] + v, rest))
  }

  function ReadField(s: string): (r: Option<(string, string)>)
    ensures r.Some? ==> |r.value.1| < |s|
  {
    if |s| > 0 && s[0] == '"' then ReadQuoted(s[1..]) else None
  }

  /** Comma-separated quoted fields, up to the first character after a field that is not a comma. */
  function ReadFields(s: string): (r: Option<(seq<string>, string)>)
    ensures r.Some? ==> |r.value.1| < |s|
    decreases |s|
  {
    match ReadField(s)
    case None => None
    case Some((v, rest)) =>
      if |rest| > 0 && rest[0] == ',' then
        match ReadFields(rest[1..])
        case None => None
        case Some((vs, rest')) => Some(([v] + vs, rest'))
      else Some(([v], rest))
  }

  /** A whole document: records separated by line feeds, nothing left over. */
  function ReadRecords(s: string): (r: Option<seq<seq<string>>>)
    decreases |s|
  {
    match ReadFields(s)
    case None => None
    case Some((fields, rest)) =>
      if |rest| == 0 then Some([fields])
      else if rest[0] == '\n' then
        match ReadRecords(rest[1..])
        case None => None
        case Some(more) => Some([fields] + more)
      else None
  }

  // ---------------------------------------------------------------------
  // Round trip
  // ---------------------------------------------------------------------

  /** Un-doubling reads a doubled body back, stopping at the closing quote. */
  lemma {:induction false} ReadQuotedDouble(x: string, rest: string)
    requires |rest| == 0 || rest[0] != '"'
    ensures ReadQuoted(Double(x) + "\"" + rest) == Some((x, rest))
    decreases |x|
  {
    var s := Double(x) + "\"" + rest;
    if |x| == 0 {
      assert s == "\"" + rest;
      assert s[1..] == rest;
    } else if x[0] == '"' {
      assert s == "\"\"" + (Double(x[1..]) + "\"" + rest);
      assert s[2..] == Double(x[1..]) + "\"" + rest;
      ReadQuotedDouble(x[1..], rest);
      assert "\"" + x[1..] == x;
    } else {
      assert s == [x[0]] + (Double(x[1..]) + "\"" + rest);
      assert s[1..] == Double(x[1..]) + "\"" + rest;
      ReadQuotedDouble(x[1..], rest);
      assert [x[0]] + x[1..] == x;
    }
  }

  lemma ReadFieldQuote(x: string, rest: string)
    requires |rest| == 0 || rest[0] != '"'
    ensures ReadField(Quote(x) + rest) == Some((x, rest))
  {
    assert (Quote(x) + rest)[1..] == Double(x) + "\"" + rest;
    ReadQuotedDouble(x, rest);
  }

  /** One step of `ReadFields`: a field followed by a comma and more fields. */
  lemma ReadFieldsMore(s: string, v: string, rest: string, vs: seq<string>, rest': string)
    requires ReadField(s) == Some((v, rest))
    requires |rest| > 0 && rest[0] == ','
    requires ReadFields(rest[1..]) == Some((vs, rest'))
    ensures ReadFields(s) == Some(([v] + vs, rest'))
  {
  }

  /** The last step of `ReadFields`: a field not followed by a comma. */
  lemma ReadFieldsLast(s: string, v: string, rest: string)
    requires ReadField(s) == Some((v, rest))
    requires |rest| == 0 || rest[0] != ','
    ensures ReadFields(s) == Some(([v], rest))
  {
  }

  lemma {:induction false} ReadFieldsEncodeRecord(fields: seq<string>, rest: string)
    requires |fields| > 0
    requires |rest| == 0 || rest[0] == '\n'
    ensures ReadFields(EncodeRecord(fields) + rest) == Some((fields, rest))
    decreases |fields|
  {
    if |fields| == 1 {
      ReadFieldsSingle(fields, rest);
    } else {
      ReadFieldsEncodeRecord(fields[1..], rest);
      ReadFieldsStep(fields, rest);
    }
  }

  /** A record of one field reads back as that field. */
  lemma ReadFieldsSingle(fields: seq<string>, rest: string)
    requires |fields| == 1
    requires |rest| == 0 || rest[0] == '\n'
    ensures ReadFields(EncodeRecord(fields) + rest) == Some((fields, rest))
  {
    ReadFieldQuote(fields[0], rest);
    assert EncodeRecord(fields) + rest == Quote(fields[0]) + rest;
    ReadFieldsLast(Quote(fields[0]) + rest, fields[0], rest);
    assert [fields[0]] == fields;
  }

  /** A record of several fields reads back when its tail does. */
  lemma ReadFieldsStep(fields: seq<string>, rest: string)
    requires |fields| > 1
    requires |rest| == 0 || rest[0] == '\n'
    requires ReadFields(EncodeRecord(fields[1..]) + rest) == Some((fields[1..], rest))
    ensures ReadFields(EncodeRecord(fields) + rest) == Some((fields, rest))
  {
    var after := EncodeRecord(fields[1..]) + rest;
    var tail := [','] + after;
    assert tail[1..] == after;
    ReadFieldQuote(fields[0], tail);
    ReadFieldsMore(Quote(fields[0]) + tail, fields[0], tail, fields[1..], rest);
    assert [fields[0]] + fields[1..] == fields;
    EncodeRecordCons(fields, rest);
  }

  /** A record of several fields is its first quoted field, a comma and the rest. */
  lemma EncodeRecordCons(fields: seq<string>, rest: string)
    requires |fields| > 1
    ensures EncodeRecord(fields) + rest == Quote(fields[0]) + ([','] + (EncodeRecord(fields[1..]) + rest))
  {
    var q := Quote(fields[0]);
    var e := EncodeRecord(fields[1..]);
    assert EncodeRecord(fields) == q + "," + e;
    Regroup(q, ",", e, rest);
  }

  lemma Regroup(a: string, b: string, c: string, d: string)
    ensures a + b + c + d == a + (b + (c + d))
  {
  }

  lemma {:induction false} ReadRecordsEncodeRecords(records: seq<seq<string>>)
    requires |records| > 0
    requires forall i | 0 <= i < |records| :: |records[i]| > 0
    ensures ReadRecords(EncodeRecords(records)) == Some(records)
    decreases |records|
  {
    if |records| == 1 {
      ReadFieldsEncodeRecord(records[0], "");
      assert EncodeRecord(records[0]) + "" == EncodeRecord(records[0]);
      assert [records[0]] == records;
    } else {
      var tail := "\n" + EncodeRecords(records[1..]);
      assert EncodeRecords(records) == EncodeRecord(records[0]) + tail;
      ReadFieldsEncodeRecord(records[0], tail);
      assert tail[1..] == EncodeRecords(records[1..]);
      ReadRecordsEncodeRecords(records[1..]);
      assert [records[0]] + records[1..] == records;
    }
  }

  /**
   * Reading the export back gives the header and then every row's five cells
   * in order: one record per row plus the header, five fields in each, and
   * every field's text recovered exactly (a null reads back as empty).
   */
  lemma ToCsvRoundTrip(rows: seq<Row>)
    ensures ReadRecords(ToCsv(rows)) == Some(Records(rows))
  {
    ReadRecordsEncodeRecords(Records(rows));
  }

  lemma PrefixOfConcat(a: string, b: string)
    ensures (a + b)[..|a|] == a
  {
  }

  /** Encoded records start with the first record. */
  lemma EncodeRecordsStartsWithFirst(records: seq<seq<string>>)
    requires |records| > 0
    ensures var h := EncodeRecord(records[0]);
      |h| <= |EncodeRecords(records)| && EncodeRecords(records)[..|h|] == h
  {
    var h := EncodeRecord(records[0]);
    if |records| > 1 {
      var t := "\n" + EncodeRecords(records[1..]);
      assert EncodeRecords(records) == h + t;
      PrefixOfConcat(h, t);
    } else {
      assert EncodeRecords(records) == h;
    }
  }

  /** The export always starts with the header record. */
  lemma ToCsvStartsWithHeader(rows: seq<Row>)
    ensures var h := EncodeRecord(HeaderNames);
      |h| <= |ToCsv(rows)| && ToCsv(rows)[..|h|] == h
  {
    EncodeRecordsStartsWithFirst(Records(rows));
  }
}
