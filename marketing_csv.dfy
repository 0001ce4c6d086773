/**
 * The dialect app.py lines 101-111 write for the marketing platform:
 * fields separated by ';', every record ended by '\n', a header record
 * first, and the csv module's minimal quoting (`quoting=0`): a field is
 * wrapped in double quotes, with its own quotes doubled, only when it
 * holds the delimiter, a double quote or a line break.
 */
module MarketingCsv {
  import opened Tables

  const Delimiter: char := ';'
  const QuoteChar: char := '"'
  const Terminator: char := '\n'

  /** The fields minimal quoting wraps in quotes. */
  predicate NeedsQuoting(f: string)
  {
    Delimiter in f || QuoteChar in f || '\r' in f || '\n' in f
  }

  /** Every double quote written twice, as `doublequote=True` asks. */
  function DoubleQuotes(f: string): (r: string)
    ensures QuoteChar !in f ==> r == f
  {
    if f == [] then []
    else if f[0] == QuoteChar then [QuoteChar, QuoteChar] + DoubleQuotes(f[1..])
    else [f[0]] + DoubleQuotes(f[1..])
  }

  /** A single character: a quote becomes two quotes, anything else is
      kept. */
  lemma DoubleQuotesOne(c: char)
    ensures DoubleQuotes([c]) == if c == QuoteChar then [QuoteChar, QuoteChar] else [c]
  {
    assert [c][1..] == [];
  }

  /** Doubling works piecewise. With DoubleQuotesOne this fixes the result
      completely: every quote is doubled and every other character kept,
      in order. */
  lemma {:induction false} DoubleQuotesAppend(a: string, b: string)
    ensures DoubleQuotes(a + b) == DoubleQuotes(a) + DoubleQuotes(b)
  {
    if a == [] {
      assert a + b == b;
    } else {
      var rest := a[1..] + b;
      assert (a + b)[0] == a[0] && (a + b)[1..] == rest;
      DoubleQuotesAppend(a[1..], b);
      var head := if a[0] == QuoteChar then [QuoteChar, QuoteChar] else [a[0]];
      assert DoubleQuotes(a) == head + DoubleQuotes(a[1..]);
      assert DoubleQuotes(a + b) == head + DoubleQuotes(rest);
      ConcatAssoc(head, DoubleQuotes(a[1..]), DoubleQuotes(b));
    }
  }

  /** Concatenation is associative. */
  lemma ConcatAssoc(x: string, y: string, z: string)
    ensures x + (y + z) == (x + y) + z
  {
  }

  /** What a reader does with the inside of a quoted field: a doubled
      quote stands for one. */
  function UndoubleQuotes(r: string): string
  {
    if r == [] then []
    else if |r| >= 2 && r[0] == QuoteChar && r[1] == QuoteChar then [QuoteChar] + UndoubleQuotes(r[2..])
    else [r[0]] + UndoubleQuotes(r[1..])
  }

  lemma {:induction false} UndoubleDoubleQuotes(f: string)
    ensures UndoubleQuotes(DoubleQuotes(f)) == f
  {
    if f != [] {
      UndoubleDoubleQuotes(f[1..]);
      if f[0] == QuoteChar {
        assert DoubleQuotes(f)[2..] == DoubleQuotes(f[1..]);
      } else {
        assert DoubleQuotes(f)[1..] == DoubleQuotes(f[1..]);
      }
    }
  }

  /** One field as the writer emits it: verbatim when it needs no quoting,
      otherwise quoted so that a reader recovers it exactly. */
  function FormatField(f: string): (r: string)
    ensures !NeedsQuoting(f) ==> r == f
    ensures NeedsQuoting(f) ==>
      |r| >= 2 && r[0] == QuoteChar && r[|r| - 1] == QuoteChar && UndoubleQuotes(r[1..|r| - 1]) == f
    ensures NeedsQuoting(f) ==> r[1..|r| - 1] == DoubleQuotes(f)
  {
    if NeedsQuoting(f) then
      var r := [QuoteChar] + DoubleQuotes(f) + [QuoteChar];
      assert r[1..|r| - 1] == DoubleQuotes(f);
      UndoubleDoubleQuotes(f);
      r
    else f
  }

  function FormatFields(fields: seq<string>): (r: seq<string>)
    ensures |r| == |fields| && forall i :: 0 <= i < |fields| ==> r[i] == FormatField(fields[i])
  {
    seq(|fields|, i requires 0 <= i < |fields| => FormatField(fields[i]))
  }

  /** The elements of `fs` with `sep` between neighbours. */
  function Join(fs: seq<string>, sep: char): string
  {
    if |fs| == 0 then "" else if |fs| == 1 then fs[0] else fs[0] + [sep] + Join(fs[1..], sep)
  }

  /** One record: its formatted fields joined by ';' and ended by '\n'. A
      record holding one empty field is written `""`, so that it does not
      read back as a blank line. */
  function FormatRecord(fields: seq<string>): (line: string)
    ensures line != [] && line[|line| - 1] == Terminator
  {
    if fields == [""] then [QuoteChar, QuoteChar, Terminator]
    else Join(FormatFields(fields), Delimiter) + [Terminator]
  }

  function FormatRecords(records: seq<seq<string>>): (text: string)
    ensures records != [] ==> text != [] && text[|text| - 1] == Terminator
  {
    if records == [] then "" else FormatRecord(records[0]) + FormatRecords(records[1..])
  }

  /** The file `df.to_csv` writes with the options of lines 101-111:
      the header record, then one record per row. */
  function Serialize(t: Table): (text: string)
    ensures text != [] && text[|text| - 1] == Terminator
    ensures |FormatRecord(t.header)| <= |text| && text[..|FormatRecord(t.header)|] == FormatRecord(t.header)
  {
    FormatRecord(t.header) + FormatRecords(t.rows)
  }

  /** The pieces of `s` between occurrences of `sep`: Python's `s.split(sep)`. */
  function Split(s: string, sep: char): (r: seq<string>)
    ensures |r| >= 1
  {
    if s == [] then [""]
    else
      var rest := Split(s[1..], sep);
      if s[0] == sep then [""] + rest else [[s[0]] + rest[0]] + rest[1..]
  }

  /** A reader for the unquoted form of the dialect: the text must end with
      a terminator; each line is one record, each ';' separates fields. */
  function ReadUnquoted(text: string): seq<seq<string>>
  {
    if text == [] || text[|text| - 1] != Terminator then []
    else
      var lines := Split(text[..|text| - 1], Terminator);
      seq(|lines|, i requires 0 <= i < |lines| => Split(lines[i], Delimiter))
  }

  /** A record the writer emits verbatim: at least one field, not the lone
      empty field, and no field that needs quoting. */
  predicate PlainRecord(fields: seq<string>)
  {
    |fields| >= 1 && fields != [""] && forall i :: 0 <= i < |fields| ==> !NeedsQuoting(fields[i])
  }

  /** A plain record appears as its fields joined by ';' and a '\n'. */
  lemma FormatPlainRecord(fields: seq<string>)
    requires PlainRecord(fields)
    ensures FormatRecord(fields) == Join(fields, Delimiter) + [Terminator]
  {
    assert FormatFields(fields) == fields;
  }

  lemma {:induction false} SplitWithoutSeparator(a: string, sep: char)
    requires sep !in a
    ensures Split(a, sep) == [a]
  {
    if a != [] {
      SplitWithoutSeparator(a[1..], sep);
      assert [a[0]] + a[1..] == a;
    }
  }

  lemma {:induction false} SplitAfterPiece(a: string, sep: char, b: string)
    requires sep !in a
    ensures Split(a + [sep] + b, sep) == [a] + Split(b, sep)
  {
    var s := a + [sep] + b;
    if a == [] {
      assert s[1..] == b;
    } else {
      assert s[1..] == a[1..] + [sep] + b;
      SplitAfterPiece(a[1..], sep, b);
      assert [a[0]] + a[1..] == a;
    }
  }

  /** Splitting undoes joining when no piece holds the separator. */
  lemma {:induction false} SplitJoin(fs: seq<string>, sep: char)
    requires |fs| >= 1
    requires forall i :: 0 <= i < |fs| ==> sep !in fs[i]
    ensures Split(Join(fs, sep), sep) == fs
  {
    if |fs| == 1 {
      SplitWithoutSeparator(fs[0], sep);
    } else {
      SplitJoin(fs[1..], sep);
      SplitAfterPiece(fs[0], sep, Join(fs[1..], sep));
      assert [fs[0]] + fs[1..] == fs;
    }
  }

  /** Joining introduces no character other than the separator. */
  lemma {:induction false} JoinAvoids(fs: seq<string>, sep: char, c: char)
    requires c != sep
    requires forall i :: 0 <= i < |fs| ==> c !in fs[i]
    ensures c !in Join(fs, sep)
  {
    if |fs| > 1 {
      JoinAvoids(fs[1..], sep, c);
    }
  }

  function JoinedRecords(records: seq<seq<string>>): (lines: seq<string>)
    ensures |lines| == |records|
    ensures forall i :: 0 <= i < |records| ==> lines[i] == Join(records[i], Delimiter)
  {
    seq(|records|, i requires 0 <= i < |records| => Join(records[i], Delimiter))
  }

  /** Plain records make up the text line by line. */
  lemma {:induction false} FormatPlainRecords(records: seq<seq<string>>)
    requires |records| >= 1
    requires forall k :: 0 <= k < |records| ==> PlainRecord(records[k])
    ensures FormatRecords(records) == Join(JoinedRecords(records), Terminator) + [Terminator]
  {
    FormatPlainRecord(records[0]);
    if |records| > 1 {
      FormatPlainRecords(records[1..]);
      assert JoinedRecords(records)[1..] == JoinedRecords(records[1..]);
    } else {
      assert records[1..] == [];
    }
  }

  /** The file written for plain records is their lines, each ended by '\n'. */
  lemma SerializePlain(t: Table)
    requires PlainRecord(t.header)
    requires forall k :: 0 <= k < |t.rows| ==> PlainRecord(t.rows[k])
    ensures Serialize(t) == Join(JoinedRecords([t.header] + t.rows), Terminator) + [Terminator]
  {
    var records := [t.header] + t.rows;
    assert records[1..] == t.rows;
    assert Serialize(t) == FormatRecords(records);
    FormatPlainRecords(records);
  }

  /** Reading lines of plain records gives the records back. */
  lemma ReadJoinedRecords(records: seq<seq<string>>)
    requires |records| >= 1
    requires forall k :: 0 <= k < |records| ==> PlainRecord(records[k])
    ensures ReadUnquoted(Join(JoinedRecords(records), Terminator) + [Terminator]) == records
  {
    var lines := JoinedRecords(records);
    forall i | 0 <= i < |lines| ensures Terminator !in lines[i] {
      JoinAvoids(records[i], Delimiter, Terminator);
    }
    var text := Join(lines, Terminator) + [Terminator];
    assert text[..|text| - 1] == Join(lines, Terminator);
    SplitJoin(lines, Terminator);
    forall i | 0 <= i < |records| ensures Split(lines[i], Delimiter) == records[i] {
      SplitJoin(records[i], Delimiter);
    }
  }

  /** The file is the header line followed by one line per row, each line
      its fields joined by ';': reading it back line by line and field by
      field gives the header and the rows again. */
  lemma SerializeRoundTrip(t: Table)
    requires PlainRecord(t.header)
    requires forall k :: 0 <= k < |t.rows| ==> PlainRecord(t.rows[k])
    ensures ReadUnquoted(Serialize(t)) == [t.header] + t.rows
  {
    SerializePlain(t);
    ReadJoinedRecords([t.header] + t.rows);
  }

  /** A one-row, two-column export of fields that need no quoting. */
  lemma SerializeOneRow(t: Table, a: string, b: string, c: string, d: string)
    requires t == Table([a, b], [[c, d]])
    requires !NeedsQuoting(a) && !NeedsQuoting(b) && !NeedsQuoting(c) && !NeedsQuoting(d)
    ensures Serialize(t) == a + [Delimiter] + b + [Terminator] + c + [Delimiter] + d + [Terminator]
  {
    FormatPlainRecord(t.header);
    FormatPlainRecord(t.rows[0]);
    assert Join(t.header, Delimiter) == a + [Delimiter] + b by {
      assert t.header[1..] == [b];
    }
    assert Join(t.rows[0], Delimiter) == c + [Delimiter] + d by {
      assert t.rows[0][1..] == [d];
    }
    assert FormatRecords(t.rows) == FormatRecord(t.rows[0]) by {
      assert t.rows[1..] == [];
    }
  }

  // The example lemmas take their literals as parameters fixed by
  // `requires`, which keeps each proof small for the solver.

  /** The example's fields hold no delimiter, quote or line break. */
  lemma ExampleFieldsPlain(a: string, b: string, c: string, d: string)
    requires a == "CPF" && b == "nome" && c == "12345678900" && d == "Ana"
    ensures !NeedsQuoting(a) && !NeedsQuoting(b) && !NeedsQuoting(c) && !NeedsQuoting(d)
  {
  }

  /** The example's two records as text. */
  lemma ExampleText(a: string, b: string, c: string, d: string)
    requires a == "CPF" && b == "nome" && c == "12345678900" && d == "Ana"
    ensures a + [Delimiter] + b + [Terminator] + c + [Delimiter] + d + [Terminator] == "CPF;nome\n12345678900;Ana\n"
  {
  }

  /** A one-row export: `CPF;nome` and `12345678900;Ana`, unquoted. */
  lemma SerializeExample(t: Table, a: string, b: string, c: string, d: string)
    requires a == "CPF" && b == "nome" && c == "12345678900" && d == "Ana"
    requires t == Table([a, b], [[c, d]])
    ensures Serialize(t) == "CPF;nome\n12345678900;Ana\n"
  {
    ExampleFieldsPlain(a, b, c, d);
    SerializeOneRow(t, a, b, c, d);
    ExampleText(a, b, c, d);
  }
}
