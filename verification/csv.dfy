/** The roster CSV codec: `rosterToCSV` (export) and `parseCSV` (bulk
    import). Quoting follows section 2 of RFC 4180 for the characters the
    encoder looks at; the parser reads one line at a time, so a quoted line
    break is not supported. */
module Csv {
  import opened Text

  // ---------------------------------------------------------------------
  // Encoding

  /** A field is quoted exactly when it holds a comma, a double quote or a line feed. */
  predicate NeedsQuotes(s: string) {
    ',' in s || '"' in s || '\n' in s
  }

  /** Every double quote written twice. */
  function DoubleQuotes(s: string): (r: string)
    ensures forall c :: c in r ==> c in s
    ensures '"' !in s ==> r == s
  {
    if |s| == 0 then ""
    else (if s[0] == '"' then "\"\"" else [s[0]]) + DoubleQuotes(s[1..])
  }

  /** One field, quoted and with inner quotes doubled when it needs quoting. */
  function EncodeField(s: string): (r: string)
    ensures r == s <==> !NeedsQuotes(s)
  {
    if NeedsQuotes(s) then
      var r := "\"" + DoubleQuotes(s) + "\"";
      assert |r| > |s| by { DoubleQuotesLength(s); }
      r
    else s
  }

  lemma {:induction false} DoubleQuotesLength(s: string)
    ensures |DoubleQuotes(s)| >= |s|
    decreases |s|
  {
    if |s| > 0 {
      DoubleQuotesLength(s[1..]);
    }
  }

  function EncodeFields(r: seq<string>): (e: seq<string>)
    ensures |e| == |r|
    ensures forall i :: 0 <= i < |r| ==> e[i] == EncodeField(r[i])
  {
    seq(|r|, i requires 0 <= i < |r| => EncodeField(r[i]))
  }

  /** One row: the encoded fields joined by commas. */
  function EncodeRow(r: seq<string>): string {
    Join(EncodeFields(r), ",")
  }

  function EncodeRows(rows: seq<seq<string>>): (e: seq<string>)
    ensures |e| == |rows|
    ensures forall i :: 0 <= i < |rows| ==> e[i] == EncodeRow(rows[i])
  {
    seq(|rows|, i requires 0 <= i < |rows| => EncodeRow(rows[i]))
  }

  /** rosterToCSV: the encoded rows joined by CR LF. */
  function RosterToCsv(rows: seq<seq<string>>): string {
    Join(EncodeRows(rows), "\r\n")
  }

  // ---------------------------------------------------------------------
  // Decoding

  /** `text.replace(/\r\n/g, '\n')`: every CR LF pair, left to right, becomes LF. */
  function ReplaceCrLf(s: string): string {
    if |s| >= 2 && s[0] == '\r' && s[1] == '\n' then "\n" + ReplaceCrLf(s[2..])
    else if |s| == 0 then ""
    else [s[0]] + ReplaceCrLf(s[1..])
  }

  /** `.replace(/\r/g, '\n')`: every remaining CR becomes LF. */
  function ReplaceCr(s: string): (r: string)
    ensures |r| == |s| && '\r' !in r
  {
    if |s| == 0 then "" else [if s[0] == '\r' then '\n' else s[0]] + ReplaceCr(s[1..])
  }

  /** The physical lines of the text after line-ending normalisation. */
  function Lines(text: string): seq<string> {
    SplitOn(ReplaceCr(ReplaceCrLf(text)), '\n')
  }

  /** `.filter(l => l.trim().length > 0)`: the lines that are not all whitespace, in order. */
  function NonBlank(lines: seq<string>): (r: seq<string>)
    ensures |r| <= |lines|
    ensures forall j :: 0 <= j < |r| ==> !Blank(r[j]) && r[j] in lines
    ensures forall l :: l in lines && !Blank(l) ==> l in r
  {
    if |lines| == 0 then []
    else (if Trim(lines[0]) != "" then [lines[0]] else []) + NonBlank(lines[1..])
  }

  /** JavaScript's `Array.prototype.filter`: the elements that pass, in order. */
  function Filtered<T>(s: seq<T>, keep: T -> bool): (r: seq<T>)
    ensures |r| <= |s|
  {
    if |s| == 0 then [] else (if keep(s[0]) then [s[0]] else []) + Filtered(s[1..], keep)
  }

  /** Filtering distributes over concatenation. */
  lemma {:induction false} FilterAppend<T>(a: seq<T>, b: seq<T>, keep: T -> bool)
    ensures Filtered(a + b, keep) == Filtered(a, keep) + Filtered(b, keep)
    decreases |a|
  {
    if |a| == 0 {
      assert a + b == b;
    } else {
      var x := if keep(a[0]) then [a[0]] else [];
      assert (a + b)[0] == a[0] && (a + b)[1..] == a[1..] + b;
      FilterAppend(a[1..], b, keep);
      ConcatAssoc(x, Filtered(a[1..], keep), Filtered(b, keep));
    }
  }

  lemma ConcatAssoc<T>(x: seq<T>, y: seq<T>, z: seq<T>)
    ensures x + (y + z) == (x + y) + z
  {
  }

  /** The line test of the filter in parseCSV. */
  predicate KeepLine(l: string) {
    Trim(l) != ""
  }

  /** NonBlank is exactly the JavaScript filter with `l.trim().length > 0`. */
  lemma {:induction false} NonBlankIsFilter(ls: seq<string>)
    ensures NonBlank(ls) == Filtered(ls, KeepLine)
    decreases |ls|
  {
    if |ls| > 0 {
      NonBlankIsFilter(ls[1..]);
    }
  }

  /** NonBlank is a filter: on a single line it keeps exactly a non-blank
      line, and it distributes over concatenation, so it keeps the order and
      the repetitions of the lines it keeps. */
  lemma NonBlankSingle(l: string)
    ensures NonBlank([l]) == if Blank(l) then [] else [l]
  {
    assert [l][1..] == [];
  }

  lemma NonBlankAppend(a: seq<string>, b: seq<string>)
    ensures NonBlank(a + b) == NonBlank(a) + NonBlank(b)
  {
    NonBlankIsFilter(a + b);
    NonBlankIsFilter(a);
    NonBlankIsFilter(b);
    FilterAppend(a, b, KeepLine);
  }

  /** The character loop of parseCSV for one line: `inQ` says whether the
      scan is inside quotes, `cur` is the field being built and `out` the
      fields already closed. */
  function ScanLine(s: string, inQ: bool, cur: string, out: seq<string>): seq<string>
    decreases |s|
  {
    if |s| == 0 then out + [cur]
    else if inQ then
      if s[0] == '"' then
        if |s| > 1 && s[1] == '"' then ScanLine(s[2..], true, cur + "\"", out)
        else ScanLine(s[1..], false, cur, out)
      else ScanLine(s[1..], true, cur + [s[0]], out)
    else if s[0] == ',' then ScanLine(s[1..], false, "", out + [cur])
    else if s[0] == '"' then ScanLine(s[1..], true, cur, out)
    else ScanLine(s[1..], false, cur + [s[0]], out)
  }

  function ParseLine(line: string): seq<string> {
    ScanLine(line, false, "", [])
  }

  /** parseCSV: one row per non-blank line. */
  function ParseCsv(text: string): (rows: seq<seq<string>>)
    ensures |rows| == |NonBlank(Lines(text))|
  {
    ParseLines(NonBlank(Lines(text)))
  }

  /** Each line parsed on its own. */
  function ParseLines(ls: seq<string>): (rows: seq<seq<string>>)
    ensures |rows| == |ls| && forall i :: 0 <= i < |ls| ==> rows[i] == ParseLine(ls[i])
  {
    seq(|ls|, i requires 0 <= i < |ls| => ParseLine(ls[i]))
  }

  // ---------------------------------------------------------------------
  // Field count

  /** The commas outside quotes, where "inside quotes" is decided by the
      parity of the double quotes seen so far (`odd` on entry). */
  function UnquotedCommas(s: string, odd: bool): nat {
    if |s| == 0 then 0
    else if s[0] == ',' && !odd then 1 + UnquotedCommas(s[1..], odd)
    else UnquotedCommas(s[1..], if s[0] == '"' then !odd else odd)
  }

  /** The scan closes one field per unquoted comma, plus the last one. */
  lemma {:induction false} ScanLineCount(s: string, inQ: bool, cur: string, out: seq<string>)
    ensures |ScanLine(s, inQ, cur, out)| == |out| + UnquotedCommas(s, inQ) + 1
    decreases |s|
  {
    if |s| == 0 {
    } else if inQ {
      if s[0] == '"' {
        if |s| > 1 && s[1] == '"' {
          ScanLineCount(s[2..], true, cur + "\"", out);
          assert s[1..][1..] == s[2..];
        } else {
          ScanLineCount(s[1..], false, cur, out);
        }
      } else {
        ScanLineCount(s[1..], true, cur + [s[0]], out);
      }
    } else if s[0] == ',' {
      ScanLineCount(s[1..], false, "", out + [cur]);
    } else if s[0] == '"' {
      ScanLineCount(s[1..], true, cur, out);
    } else {
      ScanLineCount(s[1..], false, cur + [s[0]], out);
    }
  }

  /** Every parsed row has one field more than its line has unquoted commas. */
  lemma ParseCsvFieldCount(text: string, i: int)
    requires 0 <= i < |ParseCsv(text)|
    ensures |ParseCsv(text)[i]| == UnquotedCommas(NonBlank(Lines(text))[i], false) + 1
  {
    ScanLineCount(NonBlank(Lines(text))[i], false, "", []);
  }

  // ---------------------------------------------------------------------
  // Round trip

  lemma {:induction false} ScanPlain(f: string, rest: string, cur: string, out: seq<string>)
    requires ',' !in f && '"' !in f
    ensures ScanLine(f + rest, false, cur, out) == ScanLine(rest, false, cur + f, out)
    decreases |f|
  {
    if |f| == 0 {
      assert f + rest == rest && cur + f == cur;
    } else {
      assert (f + rest)[0] == f[0] && (f + rest)[1..] == f[1..] + rest;
      ScanPlain(f[1..], rest, cur + [f[0]], out);
      assert cur + [f[0]] + f[1..] == cur + f;
    }
  }

  /** Inside quotes, a doubled quote adds one quote to the field. */
  lemma ScanEscapedQuote(t: string, cur: string, out: seq<string>)
    ensures ScanLine("\"\"" + t, true, cur, out) == ScanLine(t, true, cur + "\"", out)
  {
    assert ("\"\"" + t)[2..] == t;
  }

  /** Inside quotes, any other character is taken as it is. */
  lemma ScanQuotedChar(c: char, t: string, cur: string, out: seq<string>)
    requires c != '"'
    ensures ScanLine([c] + t, true, cur, out) == ScanLine(t, true, cur + [c], out)
  {
    assert ([c] + t)[1..] == t;
  }

  /** A quote not followed by another closes the quoted part. */
  lemma ScanClosingQuote(rest: string, cur: string, out: seq<string>)
    requires |rest| == 0 || rest[0] != '"'
    ensures ScanLine("\"" + rest, true, cur, out) == ScanLine(rest, false, cur, out)
  {
    assert ("\"" + rest)[1..] == rest;
  }

  /** Scanning the encoded quoted part of a field, from inside the quotes
      up to and including the closing quote, adds the field to `cur`. */
  lemma {:induction false} ScanQuoted(f: string, rest: string, cur: string, out: seq<string>)
    requires |rest| == 0 || rest[0] != '"'
    ensures ScanLine(DoubleQuotes(f) + "\"" + rest, true, cur, out) == ScanLine(rest, false, cur + f, out)
    decreases |f|
  {
    if |f| == 0 {
      ScanQuotedEmpty(rest, cur, out);
    } else if f[0] == '"' {
      ScanQuoted(f[1..], rest, cur + "\"", out);
      ScanQuotedQuote(f, rest, cur, out);
    } else {
      ScanQuoted(f[1..], rest, cur + [f[0]], out);
      ScanQuotedOther(f, rest, cur, out);
    }
  }

  lemma ScanQuotedEmpty(rest: string, cur: string, out: seq<string>)
    requires |rest| == 0 || rest[0] != '"'
    ensures ScanLine(DoubleQuotes("") + "\"" + rest, true, cur, out) == ScanLine(rest, false, cur + "", out)
  {
    assert DoubleQuotes("") + "\"" + rest == "\"" + rest;
    ScanClosingQuote(rest, cur, out);
    assert cur + "" == cur;
  }

  lemma ScanQuotedQuote(f: string, rest: string, cur: string, out: seq<string>)
    requires f != [] && f[0] == '"'
    requires ScanLine(DoubleQuotes(f[1..]) + "\"" + rest, true, cur + "\"", out)
      == ScanLine(rest, false, cur + "\"" + f[1..], out)
    ensures ScanLine(DoubleQuotes(f) + "\"" + rest, true, cur, out) == ScanLine(rest, false, cur + f, out)
  {
    var t := DoubleQuotes(f[1..]) + "\"" + rest;
    assert DoubleQuotes(f) + "\"" + rest == "\"\"" + t;
    ScanEscapedQuote(t, cur, out);
    assert cur + "\"" + f[1..] == cur + f;
  }

  lemma ScanQuotedOther(f: string, rest: string, cur: string, out: seq<string>)
    requires f != [] && f[0] != '"'
    requires ScanLine(DoubleQuotes(f[1..]) + "\"" + rest, true, cur + [f[0]], out)
      == ScanLine(rest, false, cur + [f[0]] + f[1..], out)
    ensures ScanLine(DoubleQuotes(f) + "\"" + rest, true, cur, out) == ScanLine(rest, false, cur + f, out)
  {
    var t := DoubleQuotes(f[1..]) + "\"" + rest;
    assert DoubleQuotes(f) + "\"" + rest == [f[0]] + t;
    ScanQuotedChar(f[0], t, cur, out);
    assert cur + [f[0]] + f[1..] == cur + f;
  }

  /** Scanning an encoded field ends with exactly that field under construction. */
  lemma ScanField(f: string, rest: string, out: seq<string>)
    requires |rest| == 0 || rest[0] == ','
    ensures ScanLine(EncodeField(f) + rest, false, "", out) == ScanLine(rest, false, f, out)
  {
    if NeedsQuotes(f) {
      EncodeQuoted(f, rest);
      ScanOpenQuote(DoubleQuotes(f) + "\"" + rest, out);
      ScanQuoted(f, rest, "", out);
      assert "" + f == f;
    } else {
      ScanPlain(f, rest, "", out);
      assert "" + f == f;
    }
  }

  lemma EncodeQuoted(f: string, rest: string)
    requires NeedsQuotes(f)
    ensures EncodeField(f) + rest == "\"" + (DoubleQuotes(f) + "\"" + rest)
  {
  }

  /** Outside quotes, a quote opens the quoted part. */
  lemma ScanOpenQuote(t: string, out: seq<string>)
    ensures ScanLine("\"" + t, false, "", out) == ScanLine(t, true, "", out)
  {
    assert ("\"" + t)[1..] == t;
  }

  lemma EncodeRowCons(r: seq<string>)
    requires |r| >= 2
    ensures EncodeRow(r) == EncodeField(r[0]) + ("," + EncodeRow(r[1..]))
  {
    var e := EncodeFields(r);
    assert EncodeFields(r[1..]) == e[1..];
  }

  lemma EncodeRowSingle(f: string)
    ensures EncodeRow([f]) == EncodeField(f) + ""
  {
    assert EncodeFields([f]) == [EncodeField(f)];
  }

  lemma ScanComma(tail: string, cur: string, out: seq<string>)
    ensures ScanLine("," + tail, false, cur, out) == ScanLine(tail, false, "", out + [cur])
  {
    assert ("," + tail)[0] == ',';
    assert ("," + tail)[1..] == tail;
  }

  /** Parsing an encoded row (of at least one field) gives the row back. */
  lemma {:induction false} ScanRow(r: seq<string>, out: seq<string>)
    requires |r| >= 1
    ensures ScanLine(EncodeRow(r), false, "", out) == out + r
    decreases |r|
  {
    if |r| == 1 {
      ScanRowSingle(r[0], out);
      assert r == [r[0]];
    } else {
      ScanRow(r[1..], out + [r[0]]);
      ScanRowStep(r, out);
    }
  }

  lemma ScanRowSingle(f: string, out: seq<string>)
    ensures ScanLine(EncodeRow([f]), false, "", out) == out + [f]
  {
    EncodeRowSingle(f);
    ScanField(f, "", out);
  }

  lemma ScanRowStep(r: seq<string>, out: seq<string>)
    requires |r| >= 2
    requires ScanLine(EncodeRow(r[1..]), false, "", out + [r[0]]) == out + [r[0]] + r[1..]
    ensures ScanLine(EncodeRow(r), false, "", out) == out + r
  {
    var tail := EncodeRow(r[1..]);
    EncodeRowCons(r);
    ScanField(r[0], "," + tail, out);
    ScanComma(tail, r[0], out);
    assert out + [r[0]] + r[1..] == out + r;
  }

  /** Every field, whatever it holds, survives encoding and parsing of its own line. */
  lemma FieldRoundTrip(f: string)
    ensures ParseLine(EncodeField(f)) == [f]
  {
    ScanRow([f], []);
    assert EncodeRow([f]) == EncodeField(f);
  }

  lemma {:induction false} JoinAvoids(parts: seq<string>, sep: string, c: char)
    requires c !in sep
    requires forall j :: 0 <= j < |parts| ==> c !in parts[j]
    ensures c !in Join(parts, sep)
    decreases |parts|
  {
    if |parts| > 1 {
      JoinAvoids(parts[1..], sep, c);
    }
  }

  /** A character other than comma and quote appears in a row's line only if it is in a field. */
  lemma EncodeRowAvoids(r: seq<string>, c: char)
    requires c != ',' && c != '"'
    requires forall j :: 0 <= j < |r| ==> c !in r[j]
    ensures c !in EncodeRow(r)
  {
    var e := EncodeFields(r);
    forall j | 0 <= j < |e|
      ensures c !in e[j]
    {
      assert c !in DoubleQuotes(r[j]);
    }
    JoinAvoids(e, ",", c);
  }

  lemma {:induction false} ReplaceCrLfPlain(a: string, rest: string)
    requires '\r' !in a
    ensures ReplaceCrLf(a + rest) == a + ReplaceCrLf(rest)
    decreases |a|
  {
    if |a| == 0 {
      assert a + rest == rest;
    } else {
      assert (a + rest)[0] == a[0] && (a + rest)[1..] == a[1..] + rest;
      ReplaceCrLfPlain(a[1..], rest);
      assert [a[0]] + (a[1..] + ReplaceCrLf(rest)) == a + ReplaceCrLf(rest);
    }
  }

  lemma {:induction false} ReplaceCrIdentity(s: string)
    requires '\r' !in s
    ensures ReplaceCr(s) == s
    decreases |s|
  {
    if |s| > 0 {
      ReplaceCrIdentity(s[1..]);
      assert s == [s[0]] + s[1..];
    }
  }

  /** Normalising CR LF-joined lines without CR or LF gives the LF-joined lines. */
  lemma {:induction false} NormaliseJoined(ls: seq<string>)
    requires forall j :: 0 <= j < |ls| ==> '\r' !in ls[j] && '\n' !in ls[j]
    ensures ReplaceCrLf(Join(ls, "\r\n")) == Join(ls, "\n")
    decreases |ls|
  {
    if |ls| == 1 {
      ReplaceCrLfPlain(ls[0], "");
      assert ls[0] + "" == ls[0];
    } else if |ls| > 1 {
      var t := Join(ls[1..], "\r\n");
      NormaliseJoined(ls[1..]);
      assert Join(ls, "\r\n") == ls[0] + ("\r\n" + t);
      ReplaceCrLfPlain(ls[0], "\r\n" + t);
      assert ("\r\n" + t)[2..] == t;
      assert ReplaceCrLf("\r\n" + t) == "\n" + ReplaceCrLf(t);
    }
  }

  lemma {:induction false} NonBlankKeepsAll(ls: seq<string>)
    requires forall j :: 0 <= j < |ls| ==> !Blank(ls[j])
    ensures NonBlank(ls) == ls
    decreases |ls|
  {
    if |ls| > 0 {
      NonBlankKeepsAll(ls[1..]);
      assert [ls[0]] + ls[1..] == ls;
    }
  }

  /** Rows whose fields hold no CR or LF and whose lines are not all
      whitespace come back unchanged from an export followed by an import. */
  lemma CsvRoundTrip(rows: seq<seq<string>>)
    requires forall i, j :: 0 <= i < |rows| && 0 <= j < |rows[i]| ==>
      '\r' !in rows[i][j] && '\n' !in rows[i][j]
    requires forall i :: 0 <= i < |rows| ==> !Blank(EncodeRow(rows[i]))
    ensures ParseCsv(RosterToCsv(rows)) == rows
  {
    var ls := EncodeRows(rows);
    forall j | 0 <= j < |ls|
      ensures '\r' !in ls[j] && '\n' !in ls[j]
    {
      EncodeRowAvoids(rows[j], '\r');
      EncodeRowAvoids(rows[j], '\n');
    }
    if |rows| == 0 {
      assert RosterToCsv(rows) == "";
      assert Lines("") == [""];
      assert Blank("");
    } else {
      NormaliseJoined(ls);
      JoinAvoids(ls, "\n", '\r');
      ReplaceCrIdentity(Join(ls, "\n"));
      SplitJoin(ls, '\n');
      assert Lines(RosterToCsv(rows)) == ls;
      NonBlankKeepsAll(ls);
      var parsed := ParseCsv(RosterToCsv(rows));
      forall i | 0 <= i < |rows|
        ensures parsed[i] == rows[i]
      {
        assert |rows[i]| == 0 ==> EncodeRow(rows[i]) == "";
        ScanRow(rows[i], []);
        assert [] + rows[i] == rows[i];
      }
    }
  }
}
