/**
 The line tokenizer of the sheet importer (`parseCSVLine` in
 src/utils/sheetsData.ts): a comma-separated line whose fields may be wrapped
 in double quotes, with a doubled quote inside quotes standing for one quote.
 */
module CsvLine {
  import opened Text

  /** Every field of a line, trimmed (`.map(v => v.trim())`). */
  function TrimAll(fields: seq<string>): (r: seq<string>)
    ensures |r| == |fields|
    ensures forall k :: 0 <= k < |r| ==> r[k] == Trim(fields[k])
  {
    seq(|fields|, k requires 0 <= k < |fields| => Trim(fields[k]))
  }

  lemma TrimAllAppend(fields: seq<string>, f: string)
    ensures TrimAll(fields + [f]) == TrimAll(fields) + [Trim(f)]
  {
  }

  /**
   The scanner, on the rest `s` of the line: `inQuotes` is the quote flag,
   `current` the field being built and `values` the fields already closed,
   untrimmed. A quote followed by a quote inside a quoted span adds one quote
   and consumes both; any other quote flips the flag and is not copied; a
   comma outside quotes closes the field; every other character is copied.
   */
  function Scan(s: string, inQuotes: bool, current: string, values: seq<string>): seq<string>
    decreases |s|
  {
    if s == [] then values + [current]
    else if s[0] == '"' then
      if inQuotes && |s| > 1 && s[1] == '"' then Scan(s[2..], inQuotes, current + ['"'], values)
      else Scan(s[1..], !inQuotes, current, values)
    else if s[0] == ',' && !inQuotes then Scan(s[1..], inQuotes, [], values + [current])
    else Scan(s[1..], inQuotes, current + [s[0]], values)
  }

  /** The scanner only appends to the closed fields, and always closes one more. */
  lemma {:induction false} ScanShape(s: string, inQuotes: bool, current: string, values: seq<string>)
    ensures var r := Scan(s, inQuotes, current, values);
      |r| > |values| && r[..|values|] == values
    decreases |s|
  {
    if s == [] {
    } else if s[0] == '"' {
      if inQuotes && |s| > 1 && s[1] == '"' {
        ScanShape(s[2..], inQuotes, current + ['"'], values);
      } else {
        ScanShape(s[1..], !inQuotes, current, values);
      }
    } else if s[0] == ',' && !inQuotes {
      var values' := values + [current];
      ScanShape(s[1..], inQuotes, [], values');
      var r := Scan(s[1..], inQuotes, [], values');
      assert r[..|values'|][..|values|] == r[..|values|];
    } else {
      ScanShape(s[1..], inQuotes, current + [s[0]], values);
    }
  }

  /** The fields of a line before trimming. */
  function RawFields(line: string): (r: seq<string>)
    ensures |r| >= 1
  {
    ScanShape(line, false, [], []);
    Scan(line, false, [], [])
  }

  /** The fields `parseCSVLine` returns for a line: never none, each one trimmed. */
  function Fields(line: string): (r: seq<string>)
    ensures |r| >= 1
    ensures forall k :: 0 <= k < |r| ==> IsTrimmed(r[k])
  {
    TrimAll(RawFields(line))
  }

  /** `parseCSVLine`: the character loop, with the skip over an escaped quote. */
  method ParseCsvLine(line: string) returns (values: seq<string>)
    ensures values == Fields(line)
  {
    values := [];
    ghost var raw: seq<string> := [];
    var current: string := [];
    var inQuotes := false;
    var j := 0;
    while j < |line|
      invariant 0 <= j <= |line|
      invariant values == TrimAll(raw)
      invariant Scan(line[j..], inQuotes, current, raw) == RawFields(line)
    {
      var c := line[j];
      assert line[j..][0] == c;
      if c == '"' {
        if inQuotes && j + 1 < |line| && line[j + 1] == '"' {
          // an escaped quote
          assert line[j..][2..] == line[j + 2..];
          current := current + ['"'];
          j := j + 1;
        } else {
          assert line[j..][1..] == line[j + 1..];
          inQuotes := !inQuotes;
        }
      } else if c == ',' && !inQuotes {
        assert line[j..][1..] == line[j + 1..];
        TrimAllAppend(raw, current);
        values := values + [Trim(current)];
        raw := raw + [current];
        current := [];
      } else {
        assert line[j..][1..] == line[j + 1..];
        current := current + [c];
      }
      j := j + 1;
    }
    assert line[j..] == [];
    TrimAllAppend(raw, current);
    values := values + [Trim(current)];
    raw := raw + [current];
  }

  /** The commas of `s` that lie outside quoted spans: the split points. */
  function SeparatorCount(s: string, inQuotes: bool): nat
    decreases |s|
  {
    if s == [] then 0
    else if s[0] == '"' then
      if inQuotes && |s| > 1 && s[1] == '"' then SeparatorCount(s[2..], inQuotes)
      else SeparatorCount(s[1..], !inQuotes)
    else if s[0] == ',' && !inQuotes then 1 + SeparatorCount(s[1..], inQuotes)
    else SeparatorCount(s[1..], inQuotes)
  }

  lemma {:induction false} ScanCount(s: string, inQuotes: bool, current: string, values: seq<string>)
    ensures |Scan(s, inQuotes, current, values)| == |values| + 1 + SeparatorCount(s, inQuotes)
    decreases |s|
  {
    if s == [] {
    } else if s[0] == '"' {
      if inQuotes && |s| > 1 && s[1] == '"' {
        ScanCount(s[2..], inQuotes, current + ['"'], values);
      } else {
        ScanCount(s[1..], !inQuotes, current, values);
      }
    } else if s[0] == ',' && !inQuotes {
      ScanCount(s[1..], inQuotes, [], values + [current]);
    } else {
      ScanCount(s[1..], inQuotes, current + [s[0]], values);
    }
  }

  /** A line has one field more than it has commas outside quotes. */
  lemma {:induction false} FieldCount(line: string)
    ensures |Fields(line)| == SeparatorCount(line, false) + 1
  {
    ScanCount(line, false, [], []);
  }

  /** The first piece of `parts` with `prefix` put in front of it. */
  function PrependFirst(prefix: string, parts: seq<string>): seq<string>
    requires |parts| >= 1
  {
    [prefix + parts[0]] + parts[1..]
  }

  lemma ScanComma(rest: string, current: string, values: seq<string>)
    ensures Scan([','] + rest, false, current, values) == Scan(rest, false, [], values + [current])
  {
    assert ([','] + rest)[1..] == rest;
  }

  lemma ScanPlain(c: char, rest: string, inQuotes: bool, current: string, values: seq<string>)
    requires c != '"' && (c != ',' || inQuotes)
    ensures Scan([c] + rest, inQuotes, current, values) == Scan(rest, inQuotes, current + [c], values)
  {
    assert ([c] + rest)[1..] == rest;
  }

  lemma ScanToggle(rest: string, inQuotes: bool, current: string, values: seq<string>)
    requires !inQuotes || rest == [] || rest[0] != '"'
    ensures Scan(['"'] + rest, inQuotes, current, values) == Scan(rest, !inQuotes, current, values)
  {
    assert (['"'] + rest)[1..] == rest;
  }

  /** The fields after a comma: the open field is closed and an empty one follows. */
  lemma PrependAfterComma(current: string, values: seq<string>, rest: seq<string>)
    requires |rest| >= 1
    ensures values + PrependFirst(current, [[]] + rest) == (values + [current]) + PrependFirst([], rest)
  {
    assert [] + rest[0] == rest[0];
    assert rest == [rest[0]] + rest[1..];
    assert PrependFirst([], rest) == rest;
    assert current + [] == current;
  }

  /** The fields after a plain character: it joins the open field. */
  lemma PrependAfterChar(c: char, current: string, values: seq<string>, rest: seq<string>)
    requires |rest| >= 1
    ensures values + PrependFirst(current, [[c] + rest[0]] + rest[1..]) == values + PrependFirst(current + [c], rest)
  {
    assert current + ([c] + rest[0]) == (current + [c]) + rest[0];
  }

  lemma {:induction false} ScanUnquoted(s: string, current: string, values: seq<string>)
    requires '"' !in s
    ensures Scan(s, false, current, values) == values + PrependFirst(current, Split(s, ','))
    decreases |s|
  {
    if s == [] {
      assert current + [] == current;
    } else {
      var c := s[0];
      var rest := Split(s[1..], ',');
      assert s == [c] + s[1..];
      assert '"' !in s[1..];
      if c == ',' {
        ScanComma(s[1..], current, values);
        ScanUnquoted(s[1..], [], values + [current]);
        assert Split(s, ',') == [[]] + rest;
        PrependAfterComma(current, values, rest);
      } else {
        ScanPlain(c, s[1..], false, current, values);
        ScanUnquoted(s[1..], current + [c], values);
        assert Split(s, ',') == [[c] + rest[0]] + rest[1..];
        PrependAfterChar(c, current, values, rest);
      }
    }
  }

  /** Without any quote character, a line splits at every comma, like `split(',')`. */
  lemma {:induction false} UnquotedLineSplitsAtCommas(line: string)
    requires '"' !in line
    ensures Fields(line) == TrimAll(Split(line, ','))
  {
    var parts := Split(line, ',');
    ScanUnquoted(line, [], []);
    assert [] + parts[0] == parts[0];
    assert PrependFirst([], parts) == parts;
    assert [] + PrependFirst([], parts) == parts;
    assert RawFields(line) == parts;
  }

  /** A field written inside quotes: every quote doubled. */
  function Escape(f: string): (r: string)
    decreases |f|
  {
    if f == [] then []
    else if f[0] == '"' then ['"', '"'] + Escape(f[1..])
    else [f[0]] + Escape(f[1..])
  }

  /** A field as a spreadsheet export writes it: quoted, with its quotes doubled. */
  function Quote(f: string): string
  {
    ['"'] + Escape(f) + ['"']
  }

  /** A row as a spreadsheet export writes it: quoted fields joined by commas. */
  function EncodeLine(fields: seq<string>): string
    requires |fields| >= 1
    decreases |fields|
  {
    if |fields| == 1 then Quote(fields[0])
    else Quote(fields[0]) + [','] + EncodeLine(fields[1..])
  }

  /** Inside quotes, a doubled quote yields one literal quote and consumes both characters. */
  lemma EscapedQuote(rest: string, current: string, values: seq<string>)
    ensures Scan(['"', '"'] + rest, true, current, values) == Scan(rest, true, current + ['"'], values)
  {
    assert (['"', '"'] + rest)[2..] == rest;
  }

  lemma EscapeCons(f: string)
    requires f != []
    ensures Escape(f) == (if f[0] == '"' then ['"', '"'] else [f[0]]) + Escape(f[1..])
  {
  }

  lemma {:induction false} ScanEscaped(f: string, rest: string, current: string, values: seq<string>)
    requires rest == [] || rest[0] != '"'
    ensures Scan(Escape(f) + ['"'] + rest, true, current, values) == Scan(rest, false, current + f, values)
    decreases |f|
  {
    var t := Escape(f) + ['"'] + rest;
    if f == [] {
      assert t == ['"'] + rest;
      ScanToggle(rest, true, current, values);
      assert current + f == current;
    } else {
      var c := f[0];
      var tail := Escape(f[1..]) + ['"'] + rest;
      var current' := current + [c];
      EscapeCons(f);
      ScanEscaped(f[1..], rest, current', values);
      assert current' + f[1..] == current + f;
      if c == '"' {
        assert t == ['"', '"'] + tail;
        EscapedQuote(tail, current, values);
      } else {
        assert t == [c] + tail;
        ScanPlain(c, tail, true, current, values);
      }
    }
  }

  lemma {:induction false} ScanQuotedField(f: string, rest: string, values: seq<string>)
    requires rest == [] || rest[0] != '"'
    ensures Scan(Quote(f) + rest, false, [], values) == Scan(rest, false, f, values)
  {
    var tail := Escape(f) + ['"'] + rest;
    assert Quote(f) + rest == ['"'] + tail;
    assert |Escape(f)| == 0 ==> tail[0] == '"';
    ScanToggle(tail, false, [], values);
    ScanEscaped(f, rest, [], values);
    assert [] + f == f;
  }

  lemma {:induction false} ScanEncoded(fields: seq<string>, values: seq<string>)
    requires |fields| >= 1
    ensures Scan(EncodeLine(fields), false, [], values) == values + fields
    decreases |fields|
  {
    if |fields| == 1 {
      ScanQuotedField(fields[0], [], values);
      assert Quote(fields[0]) + [] == Quote(fields[0]);
      assert fields == [fields[0]];
    } else {
      var rest := EncodeLine(fields[1..]);
      assert EncodeLine(fields) == Quote(fields[0]) + ([','] + rest);
      ScanQuotedField(fields[0], [','] + rest, values);
      ScanComma(rest, fields[0], values);
      ScanEncoded(fields[1..], values + [fields[0]]);
      assert fields == [fields[0]] + fields[1..];
    }
  }

  /**
   Reading back a row written by a spreadsheet export gives exactly the
   fields: quoted commas and quotes stay inside their field and the wrapping
   quotes go.
   */
  lemma {:induction false} RawFieldsOfEncodedLine(fields: seq<string>)
    requires |fields| >= 1
    ensures RawFields(EncodeLine(fields)) == fields
  {
    ScanEncoded(fields, []);
    assert [] + fields == fields;
  }

  /** After trimming, the fields read back from an exported row are the trimmed fields. */
  lemma {:induction false} FieldsOfEncodedLine(fields: seq<string>)
    requires |fields| >= 1
    ensures Fields(EncodeLine(fields)) == TrimAll(fields)
  {
    RawFieldsOfEncodedLine(fields);
  }

  /** `v.replace(/^"|"$/g, '')`: one leading and one trailing quote removed. */
  function StripQuotes(v: string): (r: string)
    ensures |r| <= |v| <= |r| + 2
  {
    var a := if |v| > 0 && v[0] == '"' then v[1..] else v;
    if |a| > 0 && a[|a| - 1] == '"' then a[..|a| - 1] else a
  }

  /** Stripping undoes wrapping a value in quotes, whatever the value holds. */
  lemma StripQuotesWrapped(s: string)
    ensures StripQuotes(['"'] + s + ['"']) == s
  {
    var v := ['"'] + s + ['"'];
    assert v[1..] == s + ['"'];
    assert (s + ['"'])[..|s|] == s;
  }

  /** A cell as the importer uses it: wrapping quotes removed, then trimmed. */
  function CleanCell(v: string): (r: string)
    ensures IsTrimmed(r)
  {
    Trim(StripQuotes(v))
  }

  /** Every cell cleaned (`.map(v => v.replace(/^"|"$/g, '').trim())`). */
  function CleanAll(fields: seq<string>): (r: seq<string>)
    ensures |r| == |fields|
    ensures forall k :: 0 <= k < |r| ==> r[k] == CleanCell(fields[k])
  {
    seq(|fields|, k requires 0 <= k < |fields| => CleanCell(fields[k]))
  }

  /** The cells of a line after the importer's clean-up. */
  function CleanCells(line: string): (r: seq<string>)
    ensures |r| >= 1
  {
    CleanAll(Fields(line))
  }

  /**
   A cell an export writes and the importer reads back unchanged: no
   surrounding white space, no line break, and no quote at either end (the
   importer would strip it).
   */
  predicate PlainCell(f: string)
  {
    IsTrimmed(f) && '\n' !in f && (f == [] || (f[0] != '"' && f[|f| - 1] != '"'))
  }

  /** The importer's clean-up leaves a plain cell as it is. */
  lemma CleanPlainCell(f: string)
    requires PlainCell(f)
    ensures CleanCell(f) == f
  {
    assert StripQuotes(f) == f;
    TrimOfTrimmed(f);
  }

  /** The cells of an exported row of plain cells read back exactly. */
  lemma {:induction false} CleanCellsOfEncodedLine(cells: seq<string>)
    requires |cells| >= 1
    requires forall k :: 0 <= k < |cells| ==> PlainCell(cells[k])
    ensures CleanCells(EncodeLine(cells)) == cells
  {
    var line := EncodeLine(cells);
    FieldsOfEncodedLine(cells);
    forall k | 0 <= k < |cells|
      ensures CleanCells(line)[k] == cells[k]
    {
      TrimOfTrimmed(cells[k]);
      CleanPlainCell(cells[k]);
    }
  }

  lemma {:induction false} EscapeAvoids(f: string, ch: char)
    requires ch != '"' && ch !in f
    ensures ch !in Escape(f)
    decreases |f|
  {
    if f != [] {
      assert ch !in f[1..];
      EscapeAvoids(f[1..], ch);
    }
  }

  /** A character that is neither a quote nor a comma appears in an exported row only if a cell holds it. */
  lemma {:induction false} EncodeLineAvoids(cells: seq<string>, ch: char)
    requires |cells| >= 1
    requires ch != '"' && ch != ','
    requires forall k :: 0 <= k < |cells| ==> ch !in cells[k]
    ensures ch !in EncodeLine(cells)
    decreases |cells|
  {
    EscapeAvoids(cells[0], ch);
    if |cells| > 1 {
      EncodeLineAvoids(cells[1..], ch);
    }
  }

  /** An exported row starts with a quote, so it is never blank. */
  lemma EncodedLineNotBlank(cells: seq<string>)
    requires |cells| >= 1
    ensures EncodeLine(cells) != [] && EncodeLine(cells)[0] == '"'
    ensures !IsBlank(EncodeLine(cells))
  {
    var line := EncodeLine(cells);
    if |cells| == 1 {
      assert line == ['"'] + Escape(cells[0]) + ['"'];
    } else {
      assert line == (['"'] + Escape(cells[0]) + ['"']) + [','] + EncodeLine(cells[1..]);
    }
    assert line[0] == '"';
    BlankIffAllSpace(line);
    assert !IsSpace(line[0]);
  }
}
