/*
 * The text csv.writer produces with its default "excel" dialect: fields
 * separated by ',', a field quoted with '"' only when it holds a ',', a '"',
 * a CR or an LF (section 2 of RFC 4180), quotes inside a quoted field
 * doubled, and every record ended by CRLF. A record made of one empty field
 * is written as "" so that it is not read back as an empty record.
 *
 * ParseDocument reads such text back; the round-trip lemmas show that the
 * encoding loses nothing.
 */
module CsvText {
  import opened Wrappers

  predicate IsSpecial(c: char)
  {
    c == ',' || c == '"' || c == '\r' || c == '\n'
  }

  /** A field written as it is, without quotes. */
  predicate Plain(f: string)
  {
    forall i :: 0 <= i < |f| ==> !IsSpecial(f[i])
  }

  /** The field with every '"' doubled. */
  function Escape(f: string): (e: string)
    ensures |e| >= |f|
  {
    if f == [] then []
    else (if f[0] == '"' then "\"\"" else [f[0]]) + Escape(f[1..])
  }

  /** A plain field is written as it is; any other is quoted. */
  function EncodeField(f: string): (e: string)
    ensures Plain(f) ==> e == f
    ensures !Plain(f) ==> |e| >= |f| + 2 && e[0] == '"' && e[|e| - 1] == '"'
  {
    if Plain(f) then f else "\"" + Escape(f) + "\""
  }

  function JoinFields(fields: seq<string>): string
  {
    if fields == [] then ""
    else if |fields| == 1 then EncodeField(fields[0])
    else EncodeField(fields[0]) + "," + JoinFields(fields[1..])
  }

  /** Only the record with no fields is written as an empty line; a lone empty field is not. */
  function EncodeRecord(fields: seq<string>): (r: string)
    ensures r == [] <==> fields == []
  {
    if fields == [""] then "\"\"" else JoinFields(fields)
  }

  /** writer.writerow(fields): the record and its line terminator. */
  function EncodeLine(fields: seq<string>): string
  {
    EncodeRecord(fields) + "\r\n"
  }

  /** The writer's whole output after writing the rows in order. */
  function EncodeDocument(rows: seq<seq<string>>): (t: string)
    ensures |t| >= 2 * |rows|
    ensures rows != [] ==> t[|t| - 2..] == "\r\n"
  {
    if rows == [] then "" else EncodeLine(rows[0]) + EncodeDocument(rows[1..])
  }

  /** Writing one more row appends its line to the output. */
  lemma {:induction false} EncodeDocumentAppend(rows: seq<seq<string>>, row: seq<string>)
    ensures EncodeDocument(rows + [row]) == EncodeDocument(rows) + EncodeLine(row)
  {
    if rows != [] {
      assert (rows + [row])[1..] == rows[1..] + [row];
      EncodeDocumentAppend(rows[1..], row);
    }
  }

  // ---- reading the text back ----

  /** The rest of a quoted field after its opening quote: the field and what follows its closing quote. */
  function ParseQuoted(t: string): (r: Option<(string, string)>)
    ensures r.Some? ==> |r.value.1| < |t|
    decreases |t|
  {
    if t == [] then None
    else if t[0] == '"' then
      if |t| > 1 && t[1] == '"' then
        match ParseQuoted(t[2..])
        case None => None
        case Some((f, rest)) => Some(("\"" + f, rest))
      else Some(("", t[1..]))
    else
      match ParseQuoted(t[1..])
      case None => None
      case Some((f, rest)) => Some(([t[0]] + f, rest))
  }

  /** An unquoted field runs up to the next ',' or CR. */
  function ParseBare(t: string): (r: (string, string))
    ensures r.0 + r.1 == t
  {
    if t == [] || t[0] == ',' || t[0] == '\r' then ("", t)
    else
      var (f, rest) := ParseBare(t[1..]);
      assert [t[0]] + f + rest == t;
      ([t[0]] + f, rest)
  }

  function ParseField(t: string): (r: Option<(string, string)>)
    ensures r.Some? ==> |r.value.1| <= |t|
  {
    if t != [] && t[0] == '"' then ParseQuoted(t[1..])
    else
      var (f, rest) := ParseBare(t);
      Some((f, rest))
  }

  /** Fields separated by ',' up to and including the CRLF that ends the record. */
  function ParseFields(t: string): (r: Option<(seq<string>, string)>)
    ensures r.Some? ==> |r.value.1| < |t|
    decreases |t|
  {
    match ParseField(t)
    case None => None
    case Some((f, rest)) =>
      if |rest| > 0 && rest[0] == ',' then
        match ParseFields(rest[1..])
        case None => None
        case Some((fs, rest2)) => Some(([f] + fs, rest2))
      else if |rest| >= 2 && rest[0] == '\r' && rest[1] == '\n' then Some(([f], rest[2..]))
      else None
  }

  /** A lone CRLF is an empty record. */
  function ParseRecord(t: string): (r: Option<(seq<string>, string)>)
    ensures r.Some? ==> |r.value.1| < |t|
  {
    if |t| >= 2 && t[0] == '\r' && t[1] == '\n' then Some(([], t[2..]))
    else ParseFields(t)
  }

  function ParseDocument(s: string): Option<seq<seq<string>>>
    decreases |s|
  {
    if s == [] then Some([])
    else
      match ParseRecord(s)
      case None => None
      case Some((row, rest)) =>
        match ParseDocument(rest)
        case None => None
        case Some(rows) => Some([row] + rows)
  }

  // ---- round trips ----

  /** What may follow a field: a separator or the start of a line terminator. */
  predicate FieldEnd(rest: string)
  {
    |rest| > 0 && (rest[0] == ',' || rest[0] == '\r')
  }

  lemma {:induction false} ParseQuotedRoundTrip(f: string, rest: string)
    requires rest == [] || rest[0] != '"'
    ensures ParseQuoted(Escape(f) + "\"" + rest) == Some((f, rest))
    decreases |f|
  {
    var t := Escape(f) + "\"" + rest;
    if f == [] {
      assert t == "\"" + rest;
      assert t[1..] == rest;
    } else {
      ParseQuotedRoundTrip(f[1..], rest);
      var tail := Escape(f[1..]) + "\"" + rest;
      if f[0] == '"' {
        assert t == "\"\"" + tail;
        assert t[2..] == tail;
        assert "\"" + f[1..] == f;
      } else {
        assert t == [f[0]] + tail;
        assert t[1..] == tail;
        assert [f[0]] + f[1..] == f;
      }
    }
  }

  lemma {:induction false} ParseBareRoundTrip(f: string, rest: string)
    requires Plain(f) && FieldEnd(rest)
    ensures ParseBare(f + rest) == (f, rest)
    decreases |f|
  {
    if f == [] {
      assert f + rest == rest;
    } else {
      assert (f + rest)[1..] == f[1..] + rest;
      assert Plain(f[1..]) by {
        forall i | 0 <= i < |f[1..]|
          ensures !IsSpecial(f[1..][i])
        {
          assert f[1..][i] == f[i + 1];
        }
      }
      ParseBareRoundTrip(f[1..], rest);
      assert [f[0]] + f[1..] == f;
    }
  }

  lemma ParseFieldRoundTrip(f: string, rest: string)
    requires FieldEnd(rest)
    ensures ParseField(EncodeField(f) + rest) == Some((f, rest))
  {
    if Plain(f) {
      ParseBareRoundTrip(f, rest);
      assert f != [] ==> f[0] != '"';
    } else {
      var t := "\"" + Escape(f) + "\"" + rest;
      assert t[1..] == Escape(f) + "\"" + rest;
      ParseQuotedRoundTrip(f, rest);
    }
  }

  /** A line terminator, possibly followed by more text. */
  predicate LineEnd(rest: string)
  {
    |rest| >= 2 && rest[0] == '\r' && rest[1] == '\n'
  }

  lemma {:induction false} ParseFieldsRoundTrip(fields: seq<string>, rest: string)
    requires fields != [] && LineEnd(rest)
    ensures ParseFields(JoinFields(fields) + rest) == Some((fields, rest[2..]))
    decreases |fields|
  {
    if |fields| == 1 {
      LastFieldRoundTrip(fields[0], rest);
      assert fields == [fields[0]];
    } else {
      var tail := JoinFields(fields[1..]) + rest;
      ParseFieldsRoundTrip(fields[1..], rest);
      NextFieldRoundTrip(fields[0], tail, fields[1..], rest[2..]);
      JoinFieldsCons(fields, rest);
      assert [fields[0]] + fields[1..] == fields;
    }
  }

  /** A proof helper: one step of JoinFields, regrouped with the text after it. */
  lemma JoinFieldsCons(fields: seq<string>, rest: string)
    requires |fields| >= 2
    ensures JoinFields(fields) + rest == EncodeField(fields[0]) + "," + (JoinFields(fields[1..]) + rest)
  {
  }

  lemma LastFieldRoundTrip(f: string, rest: string)
    requires LineEnd(rest)
    ensures ParseFields(EncodeField(f) + rest) == Some(([f], rest[2..]))
  {
    ParseFieldRoundTrip(f, rest);
  }

  /** A field and a separator in front of text that reads back as fields put the field in front of them. */
  lemma NextFieldRoundTrip(f: string, tail: string, fs: seq<string>, after: string)
    requires ParseFields(tail) == Some((fs, after))
    ensures ParseFields(EncodeField(f) + "," + tail) == Some(([f] + fs, after))
  {
    var t := EncodeField(f) + "," + tail;
    assert t == EncodeField(f) + ("," + tail);
    ParseFieldRoundTrip(f, "," + tail);
    assert ("," + tail)[1..] == tail;
  }

  /** Only the empty record and the lone empty field could start their text with CR; the second is quoted. */
  lemma RecordStart(fields: seq<string>)
    requires fields != [] && fields != [""]
    ensures |JoinFields(fields)| > 0 && JoinFields(fields)[0] != '\r'
  {
    var f := fields[0];
    if Plain(f) && f != [] {
      assert !IsSpecial(f[0]);
    }
  }

  /** The quoted empty field "" followed by CRLF reads back as one empty field. */
  lemma EmptyFieldRecord(rest: string)
    ensures ParseRecord("\"\"\r\n" + rest) == Some(([""], rest))
  {
    var t := "\"\"\r\n" + rest;
    var after := "\r\n" + rest;
    assert t[1..] == Escape("") + "\"" + after;
    ParseQuotedRoundTrip("", after);
    assert ParseField(t) == Some(("", after));
    assert after[2..] == rest;
  }

  lemma ParseRecordRoundTrip(fields: seq<string>, rest: string)
    ensures ParseRecord(EncodeLine(fields) + rest) == Some((fields, rest))
  {
    if fields == [] {
      var t := EncodeLine(fields) + rest;
      assert t == "\r\n" + rest;
      assert t[2..] == rest;
    } else if fields == [""] {
      assert EncodeLine(fields) + rest == "\"\"\r\n" + rest;
      EmptyFieldRecord(rest);
    } else {
      FieldsRecord(fields, rest);
    }
  }

  lemma FieldsRecord(fields: seq<string>, rest: string)
    requires fields != [] && fields != [""]
    ensures ParseRecord(JoinFields(fields) + "\r\n" + rest) == Some((fields, rest))
  {
    var t := JoinFields(fields) + "\r\n" + rest;
    RecordStart(fields);
    assert t == JoinFields(fields) + ("\r\n" + rest);
    ParseFieldsRoundTrip(fields, "\r\n" + rest);
    assert ("\r\n" + rest)[2..] == rest;
  }

  /** Reading the writer's output gives back exactly the rows written. */
  lemma {:induction false} ParseDocumentRoundTrip(rows: seq<seq<string>>)
    ensures ParseDocument(EncodeDocument(rows)) == Some(rows)
    decreases |rows|
  {
    if rows != [] {
      var rest := EncodeDocument(rows[1..]);
      ParseRecordRoundTrip(rows[0], rest);
      ParseDocumentRoundTrip(rows[1..]);
      assert [rows[0]] + rows[1..] == rows;
    }
  }

  /**
   * csv.writer over an io.StringIO. The buffer is represented by the
   * records written so far; its text, getvalue(), is their encoding, and
   * EncodeDocumentAppend shows that each writerow appends one line to it.
   */
  class CsvWriter {
    var rows: seq<seq<string>>

    constructor ()
      ensures rows == []
    {
      rows := [];
    }

    /** The buffer's contents. */
    function Text(): string
      reads this
    {
      EncodeDocument(rows)
    }

    method WriteRow(fields: seq<string>)
      modifies this
      ensures rows == old(rows) + [fields]
    {
      rows := rows + [fields];
    }
  }
}
