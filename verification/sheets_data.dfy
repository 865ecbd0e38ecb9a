/**
 The sheet importer (src/utils/sheetsData.ts): it turns the text of a
 spreadsheet export into noun and verb records. Header cells are matched
 to fields by name, every later line is a candidate row, and a row is kept
 only when its required cells are present.
 */
module SheetsData {
  import opened Wrappers
  import opened Types
  import opened Text
  import opened CsvLine
  import opened Seqs

  // ---------------------------------------------------------------------
  // normalizeGender

  /** `s.includes(sub)` can only hold when `sub` is no longer than `s`. */
  lemma {:induction false} ContainsLength(s: string, sub: string)
    requires Contains(s, sub)
    ensures |sub| <= |s|
    decreases |s|
  {
    if !StartsWith(s, sub) {
      ContainsLength(s[1..], sub);
    }
  }

  /**
   `normalizeGender`: the first of "masculine", "feminine", "neutral" that
   occurs in the trimmed, lower-cased cell decides; anything else is Neutral.
   */
  function NormalizeGender(cell: string): Gender
  {
    var t := Lower(Trim(cell));
    if Contains(t, "masculine") then Masculine
    else if Contains(t, "feminine") then Feminine
    else if Contains(t, "neutral") then Neutral
    else Neutral
  }

  /**
   Masculine exactly when the cell mentions "masculine"; Feminine only when
   it mentions "feminine" and not "masculine"; Neutral otherwise, which is
   also the fallback for a cell naming no gender.
   */
  lemma NormalizeGenderSpec(cell: string)
    ensures var t := Lower(Trim(cell));
      (NormalizeGender(cell) == Masculine <==> Contains(t, "masculine"))
      && (NormalizeGender(cell) == Feminine <==> !Contains(t, "masculine") && Contains(t, "feminine"))
      && (NormalizeGender(cell) == Neutral <==> !Contains(t, "masculine") && !Contains(t, "feminine"))
  {
  }

  lemma MasculineLabel()
    ensures NormalizeGender("Masculine") == Masculine
  {
    TrimOfTrimmed("Masculine");
    assert Lower("Masculine") == "masculine";
    assert StartsWith("masculine", "masculine");
  }

  lemma FeminineLabel()
    ensures NormalizeGender("Feminine") == Feminine
  {
    TrimOfTrimmed("Feminine");
    assert Lower("Feminine") == "feminine";
    if Contains("feminine", "masculine") { ContainsLength("feminine", "masculine"); }
    assert StartsWith("feminine", "feminine");
  }

  lemma NeutralLabel()
    ensures NormalizeGender("Neutral") == Neutral
  {
    TrimOfTrimmed("Neutral");
    assert Lower("Neutral") == "neutral";
    if Contains("neutral", "masculine") { ContainsLength("neutral", "masculine"); }
    if Contains("neutral", "feminine") { ContainsLength("neutral", "feminine"); }
  }

  /** The label an export writes for a gender reads back as that gender. */
  lemma NormalizeGenderName(g: Gender)
    ensures NormalizeGender(GenderName(g)) == g
  {
    match g
    case Masculine => MasculineLabel();
    case Feminine => FeminineLabel();
    case Neutral => NeutralLabel();
  }

  /** Surrounding white space and letter case do not change the gender read from a cell. */
  lemma {:induction false} NormalizeGenderIgnoresCaseAndPadding(a: string, cell: string, b: string)
    requires AllSpace(a) && AllSpace(b)
    ensures NormalizeGender(a + Lower(cell) + b) == NormalizeGender(cell)
  {
    TrimIgnoresPadding(a, Lower(cell), b);
    TrimLowerCommute(cell);
    LowerIdempotent(Trim(cell));
  }

  // ---------------------------------------------------------------------
  // Column lookup

  /** `headers.findIndex(p)`: the first position whose header satisfies `p`, or -1. */
  function FindIndex(headers: seq<string>, p: string -> bool): (r: int)
    ensures -1 <= r < |headers|
    decreases |headers|
  {
    if headers == [] then -1
    else if p(headers[0]) then 0
    else
      var r := FindIndex(headers[1..], p);
      if r < 0 then -1 else r + 1
  }

  /** `findIndex` returns the first match, and -1 exactly when nothing matches. */
  lemma {:induction false} FindIndexSpec(headers: seq<string>, p: string -> bool)
    ensures var r := FindIndex(headers, p);
      (r >= 0 ==> p(headers[r]) && forall k :: 0 <= k < r ==> !p(headers[k]))
      && (r < 0 <==> forall k :: 0 <= k < |headers| ==> !p(headers[k]))
    decreases |headers|
  {
    if headers != [] && !p(headers[0]) {
      FindIndexSpec(headers[1..], p);
      forall k | 1 <= k < |headers|
        ensures headers[k] == headers[1..][k - 1]
      {
      }
    }
  }

  /** `headers.indexOf(h)`: the first position holding `h`, or -1. */
  function IndexOf(headers: seq<string>, h: string): (r: int)
    ensures -1 <= r < |headers|
  {
    FindIndex(headers, x => x == h)
  }

  /** `indexOf` returns the first occurrence, and -1 exactly when there is none. */
  lemma IndexOfSpec(headers: seq<string>, h: string)
    ensures var r := IndexOf(headers, h);
      (r >= 0 ==> headers[r] == h && forall k :: 0 <= k < r ==> headers[k] != h)
      && (r < 0 <==> h !in headers)
  {
    FindIndexSpec(headers, x => x == h);
  }

  /**
   Where `findIndex(p)` lands: the first header satisfying `p`, or -1 when
   none does (so -1 exactly when no header satisfies `p`).
   */
  predicate FirstMatch(headers: seq<string>, p: string -> bool, r: int)
  {
    -1 <= r < |headers|
    && (r >= 0 ==> p(headers[r]))
    && forall k :: 0 <= k < |headers| && (r < 0 || k < r) ==> !p(headers[k])
  }

  /** Where `indexOf(h)` lands: the first header equal to `h`, or -1 when `h` is absent. */
  predicate FirstOccurrence(headers: seq<string>, h: string, r: int)
  {
    -1 <= r < |headers|
    && (r >= 0 ==> headers[r] == h)
    && forall k :: 0 <= k < |headers| && (r < 0 || k < r) ==> headers[k] != h
  }

  lemma FindIndexFirstMatch(headers: seq<string>, p: string -> bool)
    ensures FirstMatch(headers, p, FindIndex(headers, p))
  {
    FindIndexSpec(headers, p);
  }

  lemma IndexOfFirstOccurrence(headers: seq<string>, h: string)
    ensures FirstOccurrence(headers, h, IndexOf(headers, h))
  {
    FindIndexSpec(headers, x => x == h);
  }

  /** `values[k] || ''`: a missing cell (negative or past the end) reads as empty. */
  function Cell(values: seq<string>, k: int): (r: string)
    ensures 0 <= k < |values| ==> r == values[k]
    ensures !(0 <= k < |values|) ==> r == []
  {
    if 0 <= k < |values| then values[k] else []
  }

  /** Every cell lower-cased (`.map(h => h.toLowerCase())`). */
  function LowerAll(cells: seq<string>): (r: seq<string>)
    ensures |r| == |cells|
    ensures forall k :: 0 <= k < |r| ==> r[k] == Lower(cells[k])
  {
    seq(|cells|, k requires 0 <= k < |cells| => Lower(cells[k]))
  }

  /** The header cells of a line: cleaned like any cell, then lower-cased. */
  function HeaderCells(line: string): seq<string>
  {
    LowerAll(CleanCells(line))
  }

  /** The non-blank lines of a text (`split('\n').filter(line => line.trim())`). */
  function NonBlank(lines: seq<string>): (r: seq<string>)
    ensures |r| <= |lines|
    decreases |lines|
  {
    if lines == [] then []
    else if IsBlank(lines[0]) then NonBlank(lines[1..])
    else [lines[0]] + NonBlank(lines[1..])
  }

  /** The filter keeps exactly the non-blank lines, in order. */
  lemma {:induction false} NonBlankSpec(lines: seq<string>)
    ensures forall k :: 0 <= k < |NonBlank(lines)| ==> !IsBlank(NonBlank(lines)[k]) && NonBlank(lines)[k] in lines
    ensures forall k :: 0 <= k < |lines| && !IsBlank(lines[k]) ==> lines[k] in NonBlank(lines)
    decreases |lines|
  {
    if lines != [] {
      NonBlankSpec(lines[1..]);
      var rest := NonBlank(lines[1..]);
      forall k | 0 <= k < |lines| && !IsBlank(lines[k])
        ensures lines[k] in NonBlank(lines)
      {
        if k > 0 {
          assert lines[1..][k - 1] == lines[k];
        }
      }
    }
  }

  /** The filter works line by line: filtering a concatenation concatenates the filtered parts, in order. */
  lemma {:induction false} NonBlankAppend(a: seq<string>, b: seq<string>)
    ensures NonBlank(a + b) == NonBlank(a) + NonBlank(b)
    decreases |a|
  {
    if a != [] {
      assert (a + b)[0] == a[0];
      assert (a + b)[1..] == a[1..] + b;
      NonBlankAppend(a[1..], b);
    } else {
      assert a + b == b;
    }
  }

  /** One more line is kept at the end exactly when it is not blank. */
  lemma NonBlankSnoc(lines: seq<string>, l: string)
    ensures NonBlank(lines + [l]) == NonBlank(lines) + (if IsBlank(l) then [] else [l])
  {
    NonBlankAppend(lines, [l]);
    assert [l][1..] == [];
  }

  /** Filtering lines none of which is blank keeps them all. */
  lemma {:induction false} NonBlankKeepsAll(lines: seq<string>)
    requires forall k :: 0 <= k < |lines| ==> !IsBlank(lines[k])
    ensures NonBlank(lines) == lines
    decreases |lines|
  {
    if lines != [] {
      NonBlankKeepsAll(lines[1..]);
      assert lines == [lines[0]] + lines[1..];
    }
  }

  function Lines(text: string): seq<string>
  {
    NonBlank(Split(text, '\n'))
  }

  /** The non-blank lines of a text joined from lines without line breaks are those lines. */
  lemma LinesOfJoin(lines: seq<string>)
    requires |lines| >= 1
    requires forall k :: 0 <= k < |lines| ==> '\n' !in lines[k] && !IsBlank(lines[k])
    ensures Lines(Join(lines, '\n')) == lines
  {
    SplitJoin(lines, '\n');
    NonBlankKeepsAll(lines);
  }

  // ---------------------------------------------------------------------
  // parseCSV: the noun sheet

  /** A text whose lines are a header and rows: its first line and the rest. */
  lemma LinesParts(text: string, header: string, rows: seq<string>)
    requires Lines(text) == [header] + rows
    ensures |Lines(text)| == |rows| + 1
    ensures Lines(text)[0] == header && Lines(text)[1..|Lines(text)|] == rows
  {
    ConsParts(header, rows);
  }

  /** Where each noun field sits in a row; -1 when no header matched. */
  datatype NounColumns = NounColumns(
    srNo: int, noun: int, germanWord: int, article: int, gender: int, plural: int, example: int)

  predicate IsSrNoHeader(h: string)
  {
    Contains(h, "sr no") || Contains(h, "srno") || h == "sr no."
  }

  predicate IsGermanWordHeader(h: string)
  {
    Contains(h, "german") && Contains(h, "word")
  }

  /** The column of each noun field, from the lower-cased header cells. */
  function ResolveNounColumns(headers: seq<string>): NounColumns
  {
    NounColumns(
      FindIndex(headers, IsSrNoHeader),
      IndexOf(headers, "noun"),
      FindIndex(headers, IsGermanWordHeader),
      IndexOf(headers, "article"),
      IndexOf(headers, "gender"),
      IndexOf(headers, "plural"),
      IndexOf(headers, "example"))
  }

  /**
   Each noun field is found under the first header that names it, and is
   missing (-1) exactly when no header names it.
   */
  lemma ResolveNounColumnsSpec(headers: seq<string>)
    ensures var c := ResolveNounColumns(headers);
      FirstMatch(headers, IsSrNoHeader, c.srNo)
      && FirstOccurrence(headers, "noun", c.noun)
      && FirstMatch(headers, IsGermanWordHeader, c.germanWord)
      && FirstOccurrence(headers, "article", c.article)
      && FirstOccurrence(headers, "gender", c.gender)
      && FirstOccurrence(headers, "plural", c.plural)
      && FirstOccurrence(headers, "example", c.example)
  {
    FindIndexFirstMatch(headers, IsSrNoHeader);
    FindIndexFirstMatch(headers, IsGermanWordHeader);
    IndexOfFirstOccurrence(headers, "noun");
    IndexOfFirstOccurrence(headers, "article");
    IndexOfFirstOccurrence(headers, "gender");
    IndexOfFirstOccurrence(headers, "plural");
    IndexOfFirstOccurrence(headers, "example");
  }

  function Max(a: int, b: int): int
  {
    if a < b then b else a
  }

  /** The fewest cells a noun row must have: one past the last required column. */
  function NounWidth(c: NounColumns): int
  {
    Max(Max(Max(Max(c.srNo, c.noun), c.germanWord), c.article), c.gender) + 1
  }

  /** What every noun the importer emits satisfies. */
  predicate ValidNoun(n: NounData)
  {
    n.srNo != 0 && n.noun != [] && n.germanWord != [] && n.article != []
  }

  /**
   One noun row, from its cleaned cells: too short a row, a serial number
   that does not parse or is 0, or an empty noun, German word or article
   drops the row.
   */
  function DecodeNounRow(c: NounColumns, values: seq<string>): (r: Option<NounData>)
    ensures r.Some? ==> ValidNoun(r.value)
  {
    if |values| < NounWidth(c) then None
    else
      match ParseInt(Cell(values, c.srNo))
      case None => None
      case Some(srNo) =>
        if srNo == 0 then None
        else
          var noun := Cell(values, c.noun);
          var germanWord := Cell(values, c.germanWord);
          var article := Cell(values, c.article);
          var gender := NormalizeGender(Cell(values, c.gender));
          if noun != [] && germanWord != [] && article != [] then
            Some(NounData(srNo, noun, germanWord, article, gender,
              Cell(values, c.plural), Cell(values, c.example)))
          else None
  }

  /**
   A row is kept exactly when it is wide enough, its serial number parses to
   a non-zero number, and its noun, German word and article are non-empty;
   a kept row carries its cells, with the gender cell normalised.
   */
  lemma DecodeNounRowSpec(c: NounColumns, values: seq<string>)
    ensures var r := DecodeNounRow(c, values);
      var srNo := ParseInt(Cell(values, c.srNo));
      (r.Some? <==>
        |values| >= NounWidth(c) && srNo.Some? && srNo.value != 0
        && Cell(values, c.noun) != [] && Cell(values, c.germanWord) != [] && Cell(values, c.article) != [])
      && (r.Some? ==>
        Some(r.value.srNo) == srNo
        && r.value.noun == Cell(values, c.noun)
        && r.value.germanWord == Cell(values, c.germanWord)
        && r.value.article == Cell(values, c.article)
        && r.value.gender == NormalizeGender(Cell(values, c.gender))
        && r.value.plural == Cell(values, c.plural)
        && r.value.example == Cell(values, c.example))
  {
  }

  /** The nouns of the data rows, in row order. */
  function DecodeNounRows(c: NounColumns, rows: seq<string>): (r: seq<NounData>)
    ensures |r| <= |rows|
    ensures forall k :: 0 <= k < |r| ==> ValidNoun(r[k])
    decreases |rows|
  {
    if rows == [] then []
    else DecodeNounRows(c, rows[..|rows| - 1]) + Emitted(DecodeNounRow(c, CleanCells(rows[|rows| - 1])))
  }

  /** Decoding the rows up to the last one, then the last one. */
  lemma DecodeNounRowsSnoc(c: NounColumns, rows: seq<string>)
    requires |rows| >= 1
    ensures DecodeNounRows(c, rows)
      == DecodeNounRows(c, rows[..|rows| - 1]) + Emitted(DecodeNounRow(c, CleanCells(rows[|rows| - 1])))
  {
  }

  /** The nouns a decoded row contributes: none or one. */
  function Emitted<T>(row: Option<T>): (r: seq<T>)
    ensures |r| <= 1
  {
    match row
    case None => []
    case Some(x) => [x]
  }

  lemma DecodeNounRowsStep(c: NounColumns, lines: seq<string>, i: nat)
    requires 1 <= i < |lines|
    ensures DecodeNounRows(c, lines[1..i + 1])
      == DecodeNounRows(c, lines[1..i]) + Emitted(DecodeNounRow(c, CleanCells(lines[i])))
  {
    var rows := lines[1..i + 1];
    assert rows[..|rows| - 1] == lines[1..i];
    assert rows[|rows| - 1] == lines[i];
  }

  /** `parseCSV`: the nouns a sheet export holds. */
  function ParsedNouns(text: string): (r: seq<NounData>)
    ensures forall k :: 0 <= k < |r| ==> ValidNoun(r[k])
    ensures |Lines(text)| < 2 ==> r == []
    ensures |r| < |Lines(text)| || r == []
  {
    var lines := Lines(text);
    if |lines| < 2 then []
    else DecodeNounRows(ResolveNounColumns(HeaderCells(lines[0])), lines[1..|lines|])
  }

  /** The row loop of `parseCSV`, once the columns are known. */
  method ReadNounRows(c: NounColumns, lines: seq<string>) returns (nouns: seq<NounData>)
    requires |lines| >= 1
    ensures nouns == DecodeNounRows(c, lines[1..|lines|])
  {
    nouns := [];
    for i := 1 to |lines|
      invariant nouns == DecodeNounRows(c, lines[1..i])
    {
      var fields := ParseCsvLine(lines[i]);
      var row := DecodeNounRow(c, CleanAll(fields));
      DecodeNounRowsStep(c, lines, i);
      if row.Some? {
        nouns := nouns + [row.value];
      }
    }
  }

  /** `parseCSV`: header row, then the row loop. */
  method ParseCsv(text: string) returns (nouns: seq<NounData>)
    ensures nouns == ParsedNouns(text)
    ensures forall k :: 0 <= k < |nouns| ==> ValidNoun(nouns[k])
  {
    var lines := Lines(text);
    if |lines| < 2 {
      return [];
    }
    var headerFields := ParseCsvLine(lines[0]);
    var c := ResolveNounColumns(LowerAll(CleanAll(headerFields)));
    nouns := ReadNounRows(c, lines);
  }

  /** The layout of a noun sheet: Sr No, Noun, German Word, Article, Gender, Plural, Example. */
  function StandardNounColumns(): NounColumns
  {
    NounColumns(0, 1, 2, 3, 4, 5, 6)
  }

  /** The cells an export writes for a noun, in the standard layout. */
  function NounCells(n: NounData): (r: seq<string>)
    ensures |r| == 7
  {
    [ShowInt(n.srNo), n.noun, n.germanWord, n.article, GenderName(n.gender), n.plural, n.example]
  }

  /** A noun an export can write and the importer keeps. */
  predicate ExportableNoun(n: NounData)
  {
    ValidNoun(n) && PlainCell(n.noun) && PlainCell(n.germanWord) && PlainCell(n.article)
    && PlainCell(n.plural) && PlainCell(n.example)
  }

  lemma PlainShowInt(i: int)
    ensures PlainCell(ShowInt(i))
  {
    var s := ShowInt(i);
    if i < 0 {
      var d := Decimal(-i);
      assert s == ['-'] + d;
      assert IsDigit(d[|d| - 1]);
      assert s[|s| - 1] == d[|d| - 1];
      assert '\n' !in d;
    } else {
      assert IsDigit(s[0]) && IsDigit(s[|s| - 1]);
      assert '\n' !in s;
    }
  }

  lemma PlainGenderName(g: Gender)
    ensures PlainCell(GenderName(g))
  {
  }

  lemma ParseShowInt(i: int)
    ensures ParseInt(ShowInt(i)) == Some(i)
  {
    ParseIntShowInt(i, []);
    assert ShowInt(i) + [] == ShowInt(i);
  }

  /** A row in the standard layout decodes field by field. */
  lemma DecodeStandardNounRow(n: NounData, srNo: string, gender: string)
    requires ValidNoun(n) && ParseInt(srNo) == Some(n.srNo) && NormalizeGender(gender) == n.gender
    ensures DecodeNounRow(StandardNounColumns(), [srNo, n.noun, n.germanWord, n.article, gender, n.plural, n.example])
      == Some(n)
  {
  }

  /** The cells written for a valid noun decode back to it. */
  lemma DecodeNounCells(n: NounData)
    requires ValidNoun(n)
    ensures DecodeNounRow(StandardNounColumns(), NounCells(n)) == Some(n)
  {
    ParseShowInt(n.srNo);
    NormalizeGenderName(n.gender);
    DecodeStandardNounRow(n, ShowInt(n.srNo), GenderName(n.gender));
  }

  lemma NounCellsPlain(n: NounData)
    requires ExportableNoun(n)
    ensures forall k :: 0 <= k < 7 ==> PlainCell(NounCells(n)[k])
  {
    PlainShowInt(n.srNo);
    PlainGenderName(n.gender);
  }

  /** The cells of an exported noun row survive the line tokenizer and the clean-up. */
  lemma NounCellsRead(n: NounData)
    requires ExportableNoun(n)
    ensures CleanCells(EncodeLine(NounCells(n))) == NounCells(n)
  {
    NounCellsPlain(n);
    CleanCellsOfEncodedLine(NounCells(n));
  }

  /** A noun row written in the standard layout reads back as that noun. */
  lemma NounRowRoundTrip(n: NounData)
    requires ExportableNoun(n)
    ensures DecodeNounRow(StandardNounColumns(), CleanCells(EncodeLine(NounCells(n)))) == Some(n)
  {
    NounCellsRead(n);
    DecodeNounCells(n);
  }

  /** The export lines for a list of nouns. */
  function NounLines(nouns: seq<NounData>): (r: seq<string>)
    ensures |r| == |nouns|
    ensures forall k :: 0 <= k < |r| ==> r[k] == EncodeLine(NounCells(nouns[k]))
  {
    seq(|nouns|, k requires 0 <= k < |nouns| => EncodeLine(NounCells(nouns[k])))
  }

  lemma {:induction false} DecodeNounLines(nouns: seq<NounData>)
    requires forall k :: 0 <= k < |nouns| ==> ExportableNoun(nouns[k])
    ensures DecodeNounRows(StandardNounColumns(), NounLines(nouns)) == nouns
    decreases |nouns|
  {
    if nouns != [] {
      var m := |nouns| - 1;
      var lines := NounLines(nouns);
      assert lines[..m] == NounLines(nouns[..m]);
      DecodeNounLines(nouns[..m]);
      NounRowRoundTrip(nouns[m]);
      DecodeNounRowsSnoc(StandardNounColumns(), lines);
      FrontLast(nouns);
    }
  }

  /** An exported noun row is one non-blank line. */
  lemma NounLineWellFormed(n: NounData)
    requires ExportableNoun(n)
    ensures '\n' !in EncodeLine(NounCells(n)) && !IsBlank(EncodeLine(NounCells(n)))
  {
    NounCellsPlain(n);
    EncodeLineAvoids(NounCells(n), '\n');
    EncodedLineNotBlank(NounCells(n));
  }

  lemma ParsedNounsOfLines(text: string, header: string, rows: seq<string>)
    requires Lines(text) == [header] + rows && |rows| >= 1
    ensures ParsedNouns(text) == DecodeNounRows(ResolveNounColumns(HeaderCells(header)), rows)
  {
    LinesParts(text, header, rows);
  }

  lemma SheetLinesWellFormed(header: string, nouns: seq<NounData>)
    requires '\n' !in header && !IsBlank(header)
    requires forall k :: 0 <= k < |nouns| ==> ExportableNoun(nouns[k])
    ensures var lines := [header] + NounLines(nouns);
      forall k :: 0 <= k < |lines| ==> '\n' !in lines[k] && !IsBlank(lines[k])
  {
    var rows := NounLines(nouns);
    var lines := [header] + rows;
    forall k | 0 <= k < |lines|
      ensures '\n' !in lines[k] && !IsBlank(lines[k])
    {
      if k > 0 {
        assert lines[k] == rows[k - 1];
        NounLineWellFormed(nouns[k - 1]);
      }
    }
  }

  /**
   A whole noun sheet written by an export, under a header row the importer
   reads as the standard layout, reads back as the nouns it was written from,
   in order.
   */
  lemma NounSheetRoundTrip(header: string, nouns: seq<NounData>)
    requires '\n' !in header && !IsBlank(header)
    requires ResolveNounColumns(HeaderCells(header)) == StandardNounColumns()
    requires |nouns| >= 1
    requires forall k :: 0 <= k < |nouns| ==> ExportableNoun(nouns[k])
    ensures ParsedNouns(Join([header] + NounLines(nouns), '\n')) == nouns
  {
    var rows := NounLines(nouns);
    var lines := [header] + rows;
    SheetLinesWellFormed(header, nouns);
    LinesOfJoin(lines);
    ParsedNounsOfLines(Join(lines, '\n'), header, rows);
    DecodeNounLines(nouns);
  }

  /** Without a "noun" header no row yields a noun. */
  lemma MissingNounColumnDropsRows(c: NounColumns, values: seq<string>)
    requires c.noun < 0
    ensures DecodeNounRow(c, values) == None
  {
  }

  // ---------------------------------------------------------------------
  // parseVerbsCSV: the verb sheet

  /** Where each verb field sits in a row; -1 when no header matched. */
  datatype VerbColumns = VerbColumns(
    infinitive: int, meaning: int, ich: int, du: int, erSieEs: int, wir: int, ihr: int,
    sieSie: int, past: int, pastParticiple: int, auxiliary: int, prepositions: int,
    exampleSentence: int, notes: int)

  predicate IsErSieEsHeader(h: string)
  {
    h == "er/sie/es" || h == "er sie es" || Contains(h, "er/sie") || Contains(h, "er sie")
  }

  /** The sie/Sie header: any header mentioning "sie" whose first occurrence is not the er/sie/es column. */
  predicate IsSieSieHeader(headers: seq<string>, erSieEs: int, h: string)
  {
    h == "sie/sie" || h == "sie sie" || (Contains(h, "sie") && IndexOf(headers, h) != erSieEs)
  }

  predicate IsPastHeader(h: string)
  {
    (Contains(h, "past") && Contains(h, "präteritum")) || Contains(h, "präteritum")
    || (Contains(h, "past") && !Contains(h, "participle"))
  }

  predicate IsPastParticipleHeader(h: string)
  {
    Contains(h, "past participle") || (Contains(h, "participle") && !Contains(h, "präteritum"))
  }

  predicate IsExampleHeader(h: string)
  {
    (Contains(h, "example") && Contains(h, "sentence")) || Contains(h, "example sentence") || h == "example"
  }

  predicate IsPrepositionsHeader(h: string)
  {
    h == "prepositions" || h == "preposition"
  }

  predicate IsNotesHeader(h: string)
  {
    h == "notes" || h == "note"
  }

  /** The column of each verb field, from the lower-cased header cells. */
  function ResolveVerbColumns(headers: seq<string>): VerbColumns
  {
    var erSieEs := FindIndex(headers, IsErSieEsHeader);
    VerbColumns(
      IndexOf(headers, "infinitive"),
      IndexOf(headers, "meaning"),
      IndexOf(headers, "ich"),
      IndexOf(headers, "du"),
      erSieEs,
      IndexOf(headers, "wir"),
      IndexOf(headers, "ihr"),
      FindIndex(headers, h => IsSieSieHeader(headers, erSieEs, h)),
      FindIndex(headers, IsPastHeader),
      FindIndex(headers, IsPastParticipleHeader),
      IndexOf(headers, "auxiliary"),
      FindIndex(headers, IsPrepositionsHeader),
      FindIndex(headers, IsExampleHeader),
      FindIndex(headers, IsNotesHeader))
  }

  /**
   Each verb field is found under the first header that names it, and is
   missing (-1) exactly when no header names it; the sie/Sie test depends on
   where the er/sie/es column was found.
   */
  lemma ResolveVerbColumnsSpec(headers: seq<string>)
    ensures var c := ResolveVerbColumns(headers);
      FirstOccurrence(headers, "infinitive", c.infinitive)
      && FirstOccurrence(headers, "meaning", c.meaning)
      && FirstOccurrence(headers, "ich", c.ich)
      && FirstOccurrence(headers, "du", c.du)
      && FirstMatch(headers, IsErSieEsHeader, c.erSieEs)
      && FirstOccurrence(headers, "wir", c.wir)
      && FirstOccurrence(headers, "ihr", c.ihr)
      && FirstMatch(headers, h => IsSieSieHeader(headers, c.erSieEs, h), c.sieSie)
      && FirstMatch(headers, IsPastHeader, c.past)
      && FirstMatch(headers, IsPastParticipleHeader, c.pastParticiple)
      && FirstOccurrence(headers, "auxiliary", c.auxiliary)
      && FirstMatch(headers, IsPrepositionsHeader, c.prepositions)
      && FirstMatch(headers, IsExampleHeader, c.exampleSentence)
      && FirstMatch(headers, IsNotesHeader, c.notes)
  {
    var c := ResolveVerbColumns(headers);
    IndexOfFirstOccurrence(headers, "infinitive");
    IndexOfFirstOccurrence(headers, "meaning");
    IndexOfFirstOccurrence(headers, "ich");
    IndexOfFirstOccurrence(headers, "du");
    FindIndexFirstMatch(headers, IsErSieEsHeader);
    IndexOfFirstOccurrence(headers, "wir");
    IndexOfFirstOccurrence(headers, "ihr");
    FindIndexFirstMatch(headers, h => IsSieSieHeader(headers, c.erSieEs, h));
    FindIndexFirstMatch(headers, IsPastHeader);
    FindIndexFirstMatch(headers, IsPastParticipleHeader);
    IndexOfFirstOccurrence(headers, "auxiliary");
    FindIndexFirstMatch(headers, IsPrepositionsHeader);
    FindIndexFirstMatch(headers, IsExampleHeader);
    FindIndexFirstMatch(headers, IsNotesHeader);
  }

  /** Every character of a substring found by `includes` occurs in the string. */
  lemma {:induction false} ContainsChar(s: string, sub: string, ch: char)
    requires Contains(s, sub) && ch in sub
    ensures ch in s
    decreases |s|
  {
    if StartsWith(s, sub) {
      assert s[..|sub|] == sub;
    } else {
      ContainsChar(s[1..], sub, ch);
    }
  }

  /** The er/sie/es header is never "sie/sie" or "sie sie": those have no 'r'. */
  lemma ErSieEsHeaderIsNotSieSie(h: string)
    requires IsErSieEsHeader(h)
    ensures h != "sie/sie" && h != "sie sie"
  {
    if h == "sie/sie" || h == "sie sie" {
      assert 'r' !in h;
      if Contains(h, "er/sie") {
        ContainsChar(h, "er/sie", 'r');
      } else {
        assert Contains(h, "er sie");
        ContainsChar(h, "er sie", 'r');
      }
    }
  }

  /**
   The sie/Sie matcher never settles on the er/sie/es column, although that
   header mentions "sie" as well.
   */
  lemma SieSieNotErSieEs(headers: seq<string>)
    ensures var c := ResolveVerbColumns(headers);
      c.erSieEs >= 0 ==> c.sieSie != c.erSieEs
  {
    var c := ResolveVerbColumns(headers);
    FindIndexSpec(headers, IsErSieEsHeader);
    FindIndexSpec(headers, h => IsSieSieHeader(headers, c.erSieEs, h));
    if c.erSieEs >= 0 {
      var h := headers[c.erSieEs];
      ErSieEsHeaderIsNotSieSie(h);
      IndexOfSpec(headers, h);
      var first := IndexOf(headers, h);
      assert first >= 0 && headers[first] == h;
      assert IsErSieEsHeader(headers[first]);
      assert first == c.erSieEs;
      assert !IsSieSieHeader(headers, c.erSieEs, h);
    }
  }

  /** The three columns without which the importer reads no verb at all. */
  predicate RequiredVerbColumns(c: VerbColumns)
  {
    c.infinitive >= 0 && c.meaning >= 0 && c.ich >= 0
  }

  /** `k >= 0 ? k : fallback`: a missing column read through a fallback column. */
  function OrElse(k: int, fallback: int): int
  {
    if k >= 0 then k else fallback
  }

  /** The fewest cells a verb row must have. The sie/Sie column is not among them. */
  function VerbWidth(c: VerbColumns): int
  {
    Max(Max(Max(Max(Max(Max(c.infinitive, c.meaning), c.ich), OrElse(c.du, 0)),
      OrElse(c.erSieEs, 0)), OrElse(c.wir, 0)), OrElse(c.ihr, 0)) + 1
  }

  /** The column a person's conjugation is read from: its own, or the ich column when it has none. */
  function PersonColumn(c: VerbColumns, p: Person): int
  {
    match p
    case Ich => c.ich
    case Du => OrElse(c.du, c.ich)
    case ErSieEs => OrElse(c.erSieEs, c.ich)
    case Wir => OrElse(c.wir, c.ich)
    case Ihr => OrElse(c.ihr, c.ich)
    case SieSie => OrElse(c.sieSie, c.ich)
  }

  /** `values.every(v => !v.trim())`. */
  predicate AllBlank(values: seq<string>)
  {
    forall k :: 0 <= k < |values| ==> IsBlank(values[k])
  }

  /** `values[k]?.trim() || ''`. */
  function Read(values: seq<string>, k: int): string
  {
    Trim(Cell(values, k))
  }

  /** What every verb the importer emits satisfies. */
  predicate ValidVerb(v: VerbData)
  {
    v.infinitive != [] && v.meaning != [] && v.ich != []
  }

  /** The verb record a row spells out, each cell read from its column. */
  function VerbOfRow(c: VerbColumns, values: seq<string>): VerbData
  {
    VerbData(
      Read(values, c.infinitive),
      Read(values, c.meaning),
      Read(values, PersonColumn(c, Ich)),
      Read(values, PersonColumn(c, Du)),
      Read(values, PersonColumn(c, ErSieEs)),
      Read(values, PersonColumn(c, Wir)),
      Read(values, PersonColumn(c, Ihr)),
      Read(values, PersonColumn(c, SieSie)),
      Read(values, c.past),
      Read(values, c.pastParticiple),
      Read(values, c.auxiliary),
      Read(values, c.prepositions),
      Read(values, c.exampleSentence),
      Read(values, c.notes))
  }

  /**
   One verb row, from its cleaned cells: a blank row, too short a row, or an
   empty infinitive, meaning or ich form drops the row.
   */
  function DecodeVerbRow(c: VerbColumns, values: seq<string>): (r: Option<VerbData>)
    ensures r.Some? ==> ValidVerb(r.value) && r.value == VerbOfRow(c, values)
  {
    if AllBlank(values) then None
    else if |values| < VerbWidth(c) then None
    else
      var v := VerbOfRow(c, values);
      if ValidVerb(v) then Some(v) else None
  }

  /**
   A row is kept exactly when it is not blank, is wide enough, and its
   infinitive, meaning and ich cells are non-empty once trimmed.
   */
  lemma DecodeVerbRowKept(c: VerbColumns, values: seq<string>)
    ensures DecodeVerbRow(c, values).Some? <==>
      !AllBlank(values) && |values| >= VerbWidth(c)
      && Read(values, c.infinitive) != [] && Read(values, c.meaning) != [] && Read(values, c.ich) != []
  {
  }

  /**
   Every person's conjugation is the trimmed cell of that person's column,
   or of the ich column when the sheet has none for that person.
   */
  lemma VerbOfRowConjugation(c: VerbColumns, values: seq<string>, p: Person)
    ensures Conjugation(VerbOfRow(c, values), p) == Read(values, PersonColumn(c, p))
  {
    match p
    case Ich =>
    case Du =>
    case ErSieEs =>
    case Wir =>
    case Ihr =>
    case SieSie =>
  }

  /** An optional field whose column is missing is empty. */
  lemma VerbOfRowOptional(c: VerbColumns, values: seq<string>)
    ensures var v := VerbOfRow(c, values);
      (c.past < 0 ==> v.past == []) && (c.pastParticiple < 0 ==> v.pastParticiple == [])
      && (c.auxiliary < 0 ==> v.auxiliary == []) && (c.prepositions < 0 ==> v.prepositions == [])
      && (c.exampleSentence < 0 ==> v.exampleSentence == []) && (c.notes < 0 ==> v.notes == [])
  {
    TrimOfTrimmed([]);
  }

  /** A sheet without a du, er/sie/es, wir, ihr or sie/Sie column repeats the ich form for that person. */
  lemma MissingPersonFallsBackToIch(c: VerbColumns, values: seq<string>, p: Person)
    requires PersonColumn(c, p) == c.ich
    ensures Conjugation(VerbOfRow(c, values), p) == VerbOfRow(c, values).ich
  {
    VerbOfRowConjugation(c, values, p);
  }

  /** The verbs of the data rows, in row order. */
  function DecodeVerbRows(c: VerbColumns, rows: seq<string>): (r: seq<VerbData>)
    ensures |r| <= |rows|
    ensures forall k :: 0 <= k < |r| ==> ValidVerb(r[k])
    decreases |rows|
  {
    if rows == [] then []
    else DecodeVerbRows(c, rows[..|rows| - 1]) + Emitted(DecodeVerbRow(c, CleanCells(rows[|rows| - 1])))
  }

  lemma DecodeVerbRowsStep(c: VerbColumns, lines: seq<string>, i: nat)
    requires 1 <= i < |lines|
    ensures DecodeVerbRows(c, lines[1..i + 1])
      == DecodeVerbRows(c, lines[1..i]) + Emitted(DecodeVerbRow(c, CleanCells(lines[i])))
  {
    var rows := lines[1..i + 1];
    assert rows[..|rows| - 1] == lines[1..i];
    assert rows[|rows| - 1] == lines[i];
  }

  /** `parseVerbsCSV`: the verbs a sheet export holds. */
  function ParsedVerbs(text: string): (r: seq<VerbData>)
    ensures forall k :: 0 <= k < |r| ==> ValidVerb(r[k])
    ensures |r| < |Lines(text)| || r == []
  {
    var lines := Lines(text);
    if |lines| < 2 then []
    else
      var c := ResolveVerbColumns(HeaderCells(lines[0]));
      if !RequiredVerbColumns(c) then []
      else DecodeVerbRows(c, lines[1..|lines|])
  }

  /** Without an infinitive, meaning or ich header the sheet yields no verb, whatever its rows. */
  lemma MissingRequiredColumnYieldsNoVerbs(text: string)
    requires |Lines(text)| >= 2
    requires !RequiredVerbColumns(ResolveVerbColumns(HeaderCells(Lines(text)[0])))
    ensures ParsedVerbs(text) == []
  {
  }

  /** The layout of a verb sheet with every column, in the order of the verb record. */
  function StandardVerbColumns(): VerbColumns
  {
    VerbColumns(0, 1, 2, 3, 4, 5, 6, 7, 8, 9, 10, 11, 12, 13)
  }

  /** The cells an export writes for a verb, in the standard layout. */
  function VerbCells(v: VerbData): (r: seq<string>)
    ensures |r| == 14
  {
    [v.infinitive, v.meaning, v.ich, v.du, v.erSieEs, v.wir, v.ihr, v.sieSie,
     v.past, v.pastParticiple, v.auxiliary, v.prepositions, v.exampleSentence, v.notes]
  }

  /** A verb an export can write and the importer keeps. */
  predicate ExportableVerb(v: VerbData)
  {
    ValidVerb(v) && forall k :: 0 <= k < 14 ==> PlainCell(VerbCells(v)[k])
  }

  lemma ReadPlainCells(cells: seq<string>)
    requires forall k :: 0 <= k < |cells| ==> PlainCell(cells[k])
    ensures forall k :: 0 <= k < |cells| ==> Read(cells, k) == cells[k]
  {
    forall k | 0 <= k < |cells|
      ensures Read(cells, k) == cells[k]
    {
      TrimOfTrimmed(cells[k]);
    }
  }

  lemma VerbOfStandardRow(v: VerbData)
    requires forall k :: 0 <= k < 14 ==> Read(VerbCells(v), k) == VerbCells(v)[k]
    ensures VerbOfRow(StandardVerbColumns(), VerbCells(v)) == v
  {
  }

  lemma DecodeVerbCells(v: VerbData)
    requires ExportableVerb(v)
    ensures DecodeVerbRow(StandardVerbColumns(), VerbCells(v)) == Some(v)
  {
    var cells := VerbCells(v);
    ReadPlainCells(cells);
    VerbOfStandardRow(v);
    TrimOfTrimmed(cells[0]);
    assert !AllBlank(cells) by {
      assert !IsBlank(cells[0]);
    }
  }

  /** A verb row written in the standard layout reads back as that verb. */
  lemma VerbRowRoundTrip(v: VerbData)
    requires ExportableVerb(v)
    ensures DecodeVerbRow(StandardVerbColumns(), CleanCells(EncodeLine(VerbCells(v)))) == Some(v)
  {
    CleanCellsOfEncodedLine(VerbCells(v));
    DecodeVerbCells(v);
  }

  /** The export lines for a list of verbs. */
  function VerbLines(verbs: seq<VerbData>): (r: seq<string>)
    ensures |r| == |verbs|
    ensures forall k :: 0 <= k < |r| ==> r[k] == EncodeLine(VerbCells(verbs[k]))
  {
    seq(|verbs|, k requires 0 <= k < |verbs| => EncodeLine(VerbCells(verbs[k])))
  }

  lemma {:induction false} DecodeVerbLines(verbs: seq<VerbData>)
    requires forall k :: 0 <= k < |verbs| ==> ExportableVerb(verbs[k])
    ensures DecodeVerbRows(StandardVerbColumns(), VerbLines(verbs)) == verbs
    decreases |verbs|
  {
    if verbs != [] {
      var m := |verbs| - 1;
      var lines := VerbLines(verbs);
      assert lines[..m] == VerbLines(verbs[..m]);
      DecodeVerbLines(verbs[..m]);
      VerbRowRoundTrip(verbs[m]);
      FrontLast(verbs);
    }
  }

  /** An exported verb row is one non-blank line. */
  lemma VerbLineWellFormed(v: VerbData)
    requires ExportableVerb(v)
    ensures '\n' !in EncodeLine(VerbCells(v)) && !IsBlank(EncodeLine(VerbCells(v)))
  {
    EncodeLineAvoids(VerbCells(v), '\n');
    EncodedLineNotBlank(VerbCells(v));
  }

  lemma VerbSheetLinesWellFormed(header: string, verbs: seq<VerbData>)
    requires '\n' !in header && !IsBlank(header)
    requires forall k :: 0 <= k < |verbs| ==> ExportableVerb(verbs[k])
    ensures var lines := [header] + VerbLines(verbs);
      forall k :: 0 <= k < |lines| ==> '\n' !in lines[k] && !IsBlank(lines[k])
  {
    var rows := VerbLines(verbs);
    var lines := [header] + rows;
    forall k | 0 <= k < |lines|
      ensures '\n' !in lines[k] && !IsBlank(lines[k])
    {
      if k > 0 {
        assert lines[k] == rows[k - 1];
        VerbLineWellFormed(verbs[k - 1]);
      }
    }
  }

  lemma ParsedVerbsOfLines(text: string, header: string, rows: seq<string>)
    requires Lines(text) == [header] + rows && |rows| >= 1
    requires RequiredVerbColumns(ResolveVerbColumns(HeaderCells(header)))
    ensures ParsedVerbs(text) == DecodeVerbRows(ResolveVerbColumns(HeaderCells(header)), rows)
  {
    LinesParts(text, header, rows);
  }

  /**
   A whole verb sheet written by an export, under a header row the importer
   reads as the standard layout, reads back as the verbs it was written from,
   in order.
   */
  lemma VerbSheetRoundTrip(header: string, verbs: seq<VerbData>)
    requires '\n' !in header && !IsBlank(header)
    requires ResolveVerbColumns(HeaderCells(header)) == StandardVerbColumns()
    requires |verbs| >= 1
    requires forall k :: 0 <= k < |verbs| ==> ExportableVerb(verbs[k])
    ensures ParsedVerbs(Join([header] + VerbLines(verbs), '\n')) == verbs
  {
    var rows := VerbLines(verbs);
    var lines := [header] + rows;
    VerbSheetLinesWellFormed(header, verbs);
    LinesOfJoin(lines);
    ParsedVerbsOfLines(Join(lines, '\n'), header, rows);
    DecodeVerbLines(verbs);
  }

  /** The row loop of `parseVerbsCSV`, once the columns are known. */
  method ReadVerbRows(c: VerbColumns, lines: seq<string>) returns (verbs: seq<VerbData>)
    requires |lines| >= 1
    ensures verbs == DecodeVerbRows(c, lines[1..|lines|])
  {
    verbs := [];
    for i := 1 to |lines|
      invariant verbs == DecodeVerbRows(c, lines[1..i])
    {
      var fields := ParseCsvLine(lines[i]);
      var row := DecodeVerbRow(c, CleanAll(fields));
      DecodeVerbRowsStep(c, lines, i);
      if row.Some? {
        verbs := verbs + [row.value];
      }
    }
  }

  /** `parseVerbsCSV`: header row, required-column check, then the row loop. */
  method ParseVerbsCsv(text: string) returns (verbs: seq<VerbData>)
    ensures verbs == ParsedVerbs(text)
  {
    var lines := Lines(text);
    if |lines| < 2 {
      return [];
    }
    var headerFields := ParseCsvLine(lines[0]);
    var c := ResolveVerbColumns(LowerAll(CleanAll(headerFields)));
    if c.infinitive < 0 || c.meaning < 0 || c.ich < 0 {
      return [];
    }
    verbs := ReadVerbRows(c, lines);
  }
}
