# German vocabulary drill: importer and practice sessions in Dafny

This project models the core of a small German-vocabulary drill application
written in TypeScript and React. The model has two parts.

**The spreadsheet importer** (`src/utils/sheetsData.ts`). It reads the CSV
export of two sheets: a noun sheet (serial number, English noun, German
word, article, gender, plural, example) and a verb sheet (infinitive,
meaning, six person forms, past tense, past participle, auxiliary,
prepositions, example, notes). The model covers:

- `parseCSVLine`: a character-by-character tokenizer. It splits on commas
  outside quotes, turns a doubled quote inside quotes into one quote, and
  trims every field.
- `normalizeGender`: a keyword classifier onto the three genders.
- `parseCSV` and `parseVerbsCSV`. Each drops blank lines, reads the first
  line as a lower-cased header row, resolves every column as the first
  header that matches it (or -1), and decodes the data rows best-effort.
  Rows that fail a check are skipped silently.

**The practice sessions** (`src/components/*Practice.tsx`). Each quiz screen
keeps a pool of records, the set of indices already shown, the record on
screen, a score, an answer count and an "answered" flag:

- Records are drawn without replacement. Once every index has been used,
  the used set restarts at the newly drawn index.
- An answer counts once.
- "Next" clears the answer and draws again.

The four screens differ as follows:

- The gender quiz offers the three genders.
- The person quiz offers the six persons.
- The translation quiz builds up to four distinct options from random nouns,
  then shuffles them in place (Fisher–Yates).
- The typing quiz compares the typed answer, trimmed and lower-cased, with
  the lower-cased expected form.

## Layout

| file | module | contents |
|---|---|---|
| `wrappers.dfy` | `Wrappers` | `Option` |
| `seqs.dfy` | `Seqs` | small sequence facts |
| `types.dfy` | `Types` | the records and enumerations of `src/types.ts` |
| `text.dfy` | `Text` | the JavaScript string operations the code relies on: `trim`, `toLowerCase`, `includes`, `split`, `parseInt(s, 10)` |
| `csv_line.dfy` | `CsvLine` | `parseCSVLine`: a specification function, the loop as a method, and an encoder whose output it reads back |
| `sheets_data.dfy` | `SheetsData` | `normalizeGender`, column resolution, `parseCSV`, `parseVerbsCSV`, and whole-sheet round trips |
| `session.dfy` | `Practice` | the sampling functions and the `Session` class shared by the four screens |
| `gender_practice.dfy` | `GenderPractice` | the gender quiz |
| `verbs_practice.dfy` | `VerbsPractice` | the person quiz |
| `noun_translation_practice.dfy` | `NounTranslationPractice` | option generation, the shuffle, and the translation screen |
| `verb_typing_practice.dfy` | `VerbTypingPractice` | the typed-answer check and the typing screen |

Each call to `Math.random()` becomes a parameter `x` with
`0.0 <= x < 1.0`. The index it selects in a list of length `n` is
`Math.floor(x * n)`, as in the code.

## Model

| member | source | states |
|---|---|---|
| `Types.AllGenders` | src/types.ts:1 | The genders are exactly three distinct values, in the order Masculine, Feminine, Neutral. |
| `Types.AllGendersExhaustive` | src/types.ts:1 | Every gender value is in that list. |
| `Types.AllPersons` | src/types.ts:13 | The persons are six distinct values, labelled ich, du, er/sie/es, wir, ihr, sie/Sie in that order. |
| `Types.AllPersonsExhaustive` | src/types.ts:13 | Every person value is in that list. |
| `Types.PersonNameInjective` | src/types.ts:13 | Distinct persons have distinct labels. |
| `Text.Trim` | src/utils/sheetsData.ts:41 | `trim` returns a string with no white space at either end, no longer than its input. |
| `Text.TrimStartSpec` | src/utils/sheetsData.ts:41 | Leading trimming drops only a prefix made entirely of white space. |
| `Text.TrimEndSpec` | src/utils/sheetsData.ts:47 | Trailing trimming drops only a suffix made entirely of white space. |
| `Text.TrimIgnoresPadding` | src/utils/sheetsData.ts:10 | White space added on either side of a string does not change its trim. |
| `Text.TrimIdempotent` | src/utils/sheetsData.ts:188-201 | Trimming twice equals trimming once, so the verb reader's second `trim` of already-cleaned cells changes nothing. |
| `Text.BlankIffAllSpace` | src/utils/sheetsData.ts:53 | A line is dropped as blank exactly when every character is white space. |
| `Text.Lower` | src/utils/sheetsData.ts:56 | `toLowerCase` keeps the length and maps each character on its own. |
| `Text.LowerIdempotent` | src/components/VerbTypingPractice.tsx:118-119 | Lower-casing twice equals lower-casing once, so an answer typed already in lower case is judged as if typed in any case. |
| `Text.TrimLowerCommute` | src/utils/sheetsData.ts:56 | Trimming and lower-casing commute. |
| `Text.ContainsInfix` | src/utils/sheetsData.ts:11 | `includes` finds a substring wherever it sits. |
| `Text.ContainsOccurrence` | src/utils/sheetsData.ts:11 | Conversely, when `includes` holds the substring occurs at some position, and the string is what comes before it, the substring, and what follows. |
| `Text.Split` | src/utils/sheetsData.ts:53 | `split` yields at least one piece, and no piece contains the separator. |
| `Text.JoinSplit` | src/utils/sheetsData.ts:53 | Joining the pieces of a split with the separator gives back the text. |
| `Text.SplitJoin` | src/utils/sheetsData.ts:53 | Splitting a join of separator-free pieces gives back the pieces. |
| `Text.LeadingDigits` | src/utils/sheetsData.ts:75 | The digits `parseInt` reads are the longest all-digit prefix. |
| `Text.ParseIntShowInt` | src/utils/sheetsData.ts:75 | `parseInt` reads back any integer, negative ones included, written in decimal, whatever non-digit text follows it. |
| `CsvLine.TrimAll` | src/utils/sheetsData.ts:41-47 | Every pushed field is its raw text trimmed, and the count is unchanged. |
| `CsvLine.RawFields` | src/utils/sheetsData.ts:25-49 | The tokenizer always yields at least one field. |
| `CsvLine.Scan` | src/utils/sheetsData.ts:30-47 | The character scan. Its four branches are stated by `ScanComma`, `ScanPlain`, `ScanToggle` and `EscapedQuote`, and its output by `ScanShape`. |
| `CsvLine.ScanShape` | src/utils/sheetsData.ts:30-47 | The scan only appends to the fields already closed, and always closes at least one more (the final push). |
| `CsvLine.Fields` | src/utils/sheetsData.ts:25-49 | The fields of a line number at least one, and each is trimmed. |
| `CsvLine.ParseCsvLine` | src/utils/sheetsData.ts:25-49 | The loop with its `j++` skip returns exactly the fields the specification function gives. |
| `CsvLine.ScanCount` | src/utils/sheetsData.ts:40-47 | The scan adds one field per comma outside quotes, plus one. |
| `CsvLine.FieldCount` | src/utils/sheetsData.ts:40-47 | The field count is the number of commas outside quotes plus one. |
| `CsvLine.ScanComma` | src/utils/sheetsData.ts:40-42 | A comma outside quotes ends the current field and starts an empty one. |
| `CsvLine.ScanPlain` | src/utils/sheetsData.ts:43-45 | Any other character, or a comma inside quotes, is appended to the current field. |
| `CsvLine.ScanToggle` | src/utils/sheetsData.ts:37-39 | A quote that is not a doubled quote inside quotes toggles the quote state and is not copied. |
| `CsvLine.EscapedQuote` | src/utils/sheetsData.ts:33-36 | Inside quotes, a doubled quote adds one literal quote and consumes both characters. |
| `CsvLine.ScanUnquoted` | src/utils/sheetsData.ts:30-47 | Without quotes, the scan splits at every comma. |
| `CsvLine.UnquotedLineSplitsAtCommas` | src/utils/sheetsData.ts:25-49 | A line without quotes yields its comma-separated pieces, trimmed. |
| `CsvLine.ScanEscaped` | src/utils/sheetsData.ts:32-39 | An escaped field body followed by a closing quote is read as the field itself, with the quote state closed. |
| `CsvLine.ScanQuotedField` | src/utils/sheetsData.ts:32-45 | A quoted field is read as its exact contents, including commas and quotes. |
| `CsvLine.ScanEncoded` | src/utils/sheetsData.ts:30-47 | A line of quoted fields joined by commas scans to exactly those fields. |
| `CsvLine.RawFieldsOfEncodedLine` | src/utils/sheetsData.ts:25-49 | Round trip: the tokenizer reads back, before trimming, any fields written as quoted CSV. |
| `CsvLine.FieldsOfEncodedLine` | src/utils/sheetsData.ts:25-49 | Round trip: the tokenizer returns the trimmed fields of any quoted CSV line. |
| `CsvLine.CleanCell` | src/utils/sheetsData.ts:70 | A cell with one surrounding quote stripped and then trimmed has no white space at either end. |
| `CsvLine.StripQuotes` | src/utils/sheetsData.ts:70 | `/^"\|"$/g` leaves the cell at most two characters shorter (at most one quote per end). `StripQuotesWrapped` shows which two it removes from a quoted value. |
| `CsvLine.StripQuotesWrapped` | src/utils/sheetsData.ts:70 | Stripping undoes wrapping any value in one pair of quotes. |
| `CsvLine.CleanAll` | src/utils/sheetsData.ts:167 | Cleaning a row cleans each cell and keeps the count. |
| `CsvLine.CleanCells` | src/utils/sheetsData.ts:56 | A cleaned line has at least one cell. |
| `CsvLine.CleanPlainCell` | src/utils/sheetsData.ts:70 | A trimmed, single-line cell with no quote at either end is left as it is by cleaning. |
| `CsvLine.CleanCellsOfEncodedLine` | src/utils/sheetsData.ts:167 | Round trip: plain cells written as a CSV line are read and cleaned back to themselves. |
| `CsvLine.EncodeLineAvoids` | src/utils/sheetsData.ts:53 | A written line contains no newline when its cells contain none, so it stays one line. |
| `CsvLine.EncodedLineNotBlank` | src/utils/sheetsData.ts:53 | A written line is never dropped as blank. |
| `SheetsData.NormalizeGender` | src/utils/sheetsData.ts:9-22 | The classifier: trim, lower-case, then the three `includes` tests with Neutral as fallback. Its contract is stated by `NormalizeGenderSpec`, `NormalizeGenderName` and `NormalizeGenderIgnoresCaseAndPadding`. |
| `SheetsData.NormalizeGenderSpec` | src/utils/sheetsData.ts:9-22 | The result is Masculine exactly when the trimmed, lower-cased cell contains "masculine". It is Feminine exactly when the cell contains "feminine" and not "masculine". Otherwise it is Neutral. |
| `SheetsData.NormalizeGenderName` | src/utils/sheetsData.ts:11-19 | Each gender's own label classifies as that gender. |
| `SheetsData.NormalizeGenderIgnoresCaseAndPadding` | src/utils/sheetsData.ts:10-17 | Surrounding white space and lower-casing do not change the classification. |
| `SheetsData.FindIndexSpec` | src/utils/sheetsData.ts:59 | `findIndex` returns the first index whose header matches, and -1 exactly when none does. |
| `SheetsData.IndexOfSpec` | src/utils/sheetsData.ts:133 | `indexOf` returns the first occurrence, and -1 exactly when the header is absent. |
| `SheetsData.Cell` | src/utils/sheetsData.ts:74 | `values[k] \|\| ''` is the cell when `k` is in range, and empty otherwise (including -1). |
| `SheetsData.LowerAll` | src/utils/sheetsData.ts:56 | Headers are lower-cased one by one, and the count is unchanged. |
| `SheetsData.NonBlank` | src/utils/sheetsData.ts:53 | Filtering out blank lines never adds lines. |
| `SheetsData.NonBlankSpec` | src/utils/sheetsData.ts:53 | Every kept line is non-blank and from the input, and every non-blank input line is kept. |
| `SheetsData.NonBlankAppend` | src/utils/sheetsData.ts:53 | The filter works line by line: filtering a concatenation gives the filtered parts concatenated, so order and repeated lines are kept. |
| `SheetsData.NonBlankSnoc` | src/utils/sheetsData.ts:53 | One more line is kept at the end exactly when it is not blank. |
| `SheetsData.NonBlankKeepsAll` | src/utils/sheetsData.ts:53 | Lines that are all non-blank pass the filter unchanged, in order. |
| `SheetsData.LinesOfJoin` | src/utils/sheetsData.ts:53 | Non-blank, single-line rows joined by newlines split back into exactly those rows. |
| `SheetsData.ResolveNounColumns` | src/utils/sheetsData.ts:59-65 | The seven `findIndex`/`indexOf` lookups of the noun header row. Their contract is stated by `ResolveNounColumnsSpec`. |
| `SheetsData.ResolveNounColumnsSpec` | src/utils/sheetsData.ts:59-65 | Each of the seven noun columns is the first matching header, and -1 exactly when no header matches: "sr no"/"srno" for the serial number, "german" and "word" together for the German word, and the exact names "noun", "article", "gender", "plural" and "example". |
| `SheetsData.DecodeNounRow` | src/utils/sheetsData.ts:72-95 | Every noun a row yields has a non-zero serial number and a non-empty noun, German word and article. |
| `SheetsData.DecodeNounRowSpec` | src/utils/sheetsData.ts:72-95 | A row is kept exactly when it is wide enough, its serial cell parses to a non-zero integer, and its noun, German word and article cells are non-empty. The kept noun carries those cells and the classified gender. |
| `SheetsData.DecodeNounRows` | src/utils/sheetsData.ts:69-96 | The decoded nouns are at most as many as the rows, and each one is valid. |
| `SheetsData.DecodeNounRowsStep` | src/utils/sheetsData.ts:69-96 | One more row adds its noun, if any, at the end: output order follows input order. |
| `SheetsData.ParsedNouns` | src/utils/sheetsData.ts:52-99 | Fewer than two non-blank lines give no nouns. Otherwise there are fewer nouns than lines, and every noun is valid. |
| `SheetsData.ReadNounRows` | src/utils/sheetsData.ts:69-96 | The row loop returns exactly the decoded rows. |
| `SheetsData.ParseCsv` | src/utils/sheetsData.ts:52-99 | The row loop with its `continue` skips returns exactly `ParsedNouns`. |
| `SheetsData.ParseShowInt` | src/utils/sheetsData.ts:75 | The serial-number parser reads back any written serial number. |
| `SheetsData.DecodeStandardNounRow` | src/utils/sheetsData.ts:72-95 | In the standard layout, a row with a valid noun's cells decodes to that noun. |
| `SheetsData.NounRowRoundTrip` | src/utils/sheetsData.ts:70-95 | Round trip: a valid noun written as a CSV row in the standard layout reads back as that noun. |
| `SheetsData.DecodeNounLines` | src/utils/sheetsData.ts:69-96 | Rows written for a list of valid nouns decode back to that list, in order. |
| `SheetsData.NounSheetRoundTrip` | src/utils/sheetsData.ts:52-99 | Round trip: a whole noun sheet written under a standard header reads back as its nouns, in order. |
| `SheetsData.MissingNounColumnDropsRows` | src/utils/sheetsData.ts:78-85 | Without a "noun" column no row yields a noun. |
| `SheetsData.ErSieEsHeaderIsNotSieSie` | src/utils/sheetsData.ts:122-134 | The literal er/sie/es headers are never taken for the sie/Sie header. |
| `SheetsData.SieSieNotErSieEs` | src/utils/sheetsData.ts:130-134 | When an er/sie/es column exists, the sie/Sie column is never that same column. |
| `SheetsData.ResolveVerbColumns` | src/utils/sheetsData.ts:118-151 | The fourteen lookups of the verb header row. Their contract is stated by `ResolveVerbColumnsSpec`. |
| `SheetsData.ResolveVerbColumnsSpec` | src/utils/sheetsData.ts:118-151 | Each of the fourteen verb columns is the first header its matcher accepts, and -1 exactly when none does. The sie/Sie matcher is taken relative to the er/sie/es column found first. |
| `SheetsData.VerbOfRow` | src/utils/sheetsData.ts:188-201 | The record a kept row spells out. Its fields are stated by `VerbOfRowConjugation`, `VerbOfRowOptional` and `MissingPersonFallsBackToIch`. |
| `SheetsData.DecodeVerbRow` | src/utils/sheetsData.ts:166-220 | Every verb a row yields has a non-empty infinitive, meaning and ich form, and is the record the row spells out. |
| `SheetsData.DecodeVerbRowKept` | src/utils/sheetsData.ts:170-204 | A row is kept exactly when it is not all blank, is wide enough, and its infinitive, meaning and ich cells are non-empty after trimming. |
| `SheetsData.VerbOfRowConjugation` | src/utils/sheetsData.ts:190-195 | Each person's form is the trimmed cell of that person's column, or of the ich column when the sheet has none for that person. |
| `SheetsData.VerbOfRowOptional` | src/utils/sheetsData.ts:196-201 | A missing optional column gives an empty field. |
| `SheetsData.MissingPersonFallsBackToIch` | src/utils/sheetsData.ts:191-195 | A person without a column repeats the ich form. |
| `SheetsData.DecodeVerbRows` | src/utils/sheetsData.ts:166-224 | The decoded verbs are at most as many as the rows, and each one is valid. |
| `SheetsData.DecodeVerbRowsStep` | src/utils/sheetsData.ts:166-224 | One more row adds its verb, if any, at the end: output order follows input order. |
| `SheetsData.ParsedVerbs` | src/utils/sheetsData.ts:104-228 | There are fewer verbs than non-blank lines (so none with fewer than two lines), and every verb is valid. |
| `SheetsData.MissingRequiredColumnYieldsNoVerbs` | src/utils/sheetsData.ts:154-162 | If the infinitive, meaning or ich header is missing, the sheet yields no verbs, whatever its rows. |
| `SheetsData.ReadVerbRows` | src/utils/sheetsData.ts:164-224 | The row loop returns exactly the decoded rows. |
| `SheetsData.ParseVerbsCsv` | src/utils/sheetsData.ts:104-228 | The whole importer, header check and early returns included, returns exactly `ParsedVerbs`. |
| `SheetsData.ReadPlainCells` | src/utils/sheetsData.ts:188-201 | Reading a trimmed cell returns it unchanged. |
| `SheetsData.VerbOfStandardRow` | src/utils/sheetsData.ts:188-201 | In the standard fourteen-column layout, a verb's own cells spell out that verb. |
| `SheetsData.DecodeVerbCells` | src/utils/sheetsData.ts:166-220 | In the standard layout, a row holding a valid verb's plain cells decodes to that verb. |
| `SheetsData.VerbRowRoundTrip` | src/utils/sheetsData.ts:167-220 | Round trip: a valid verb written as a CSV row reads back as that verb. |
| `SheetsData.DecodeVerbLines` | src/utils/sheetsData.ts:166-224 | Rows written for a list of valid verbs decode back to that list, in order. |
| `SheetsData.VerbSheetRoundTrip` | src/utils/sheetsData.ts:104-228 | Round trip: a whole verb sheet written under a standard header reads back as its verbs, in order. |
| `Practice.Scale` | src/components/GenderPractice.tsx:44 | `Math.floor(x * n)` with `0 <= x < 1` is an index below `n`. |
| `Practice.RangeSpec` | src/components/GenderPractice.tsx:38-39 | The pool's indices are exactly 0 to n-1, and there are n of them. |
| `Practice.UsedBounded` | src/components/GenderPractice.tsx:140 | A used set inside the pool is never larger than the pool, so "Remaining" is never negative. |
| `Practice.Available` | src/components/GenderPractice.tsx:38-40 | There are never more available indices than the pool has. |
| `Practice.AvailableSpec` | src/components/GenderPractice.tsx:38-40 | The available list holds exactly the unused indices, in increasing order. |
| `Practice.ExhaustedIff` | src/components/GenderPractice.tsx:42 | Nothing is available exactly when every index has been used. |
| `Practice.Pick` | src/components/GenderPractice.tsx:42-48 | The chosen index is in the pool. |
| `Practice.NextUsed` | src/components/GenderPractice.tsx:44-50 | The new used set holds the pick and nothing besides the old used set. `PickFresh` and `PickRecycles` give its two cases exactly. |
| `Practice.PickFresh` | src/components/GenderPractice.tsx:47-50 | While unused indices remain, the pick is unused and the used set grows by exactly that index. |
| `Practice.PickRecycles` | src/components/GenderPractice.tsx:42-46 | When every index is used, the used set becomes the singleton of the new pick. |
| `Practice.NextUsedInRange` | src/components/GenderPractice.tsx:44-50 | After a selection the used set stays inside the pool and holds the pick. |
| `Practice.NoRepeatBeforeExhaustion` | src/components/GenderPractice.tsx:37-52 | Until the pool is exhausted, no index is shown twice, nor one shown before. |
| `Practice.PicksCoverPool` | src/components/GenderPractice.tsx:37-52 | From a fresh session, as many selections as the pool has records show each record exactly once. |
| `Practice.Session.constructor` | src/components/GenderPractice.tsx:8-19 | A new screen has nothing used or current, a zero score and count, and no feedback. |
| `Practice.Session.Remaining` | src/components/GenderPractice.tsx:140 | "Remaining" plus the used count is the pool size. |
| `Practice.Session.Select` | src/components/GenderPractice.tsx:34-53 | An empty pool changes nothing. Otherwise the pick becomes current, the used set grows by the pick (or restarts at it once exhausted), and the score, count and answer flag are untouched. The same code is VerbsPractice.tsx:34-53. |
| `Practice.Session.Answer` | src/components/GenderPractice.tsx:70-84 | An accepted answer sets the answered flag, adds one to the count, adds one to the score exactly when it is right, and shows the matching verdict, so the score never exceeds the count. |
| `Practice.Session.ClearAnswer` | src/components/GenderPractice.tsx:88-89 | The feedback and the answered flag are cleared, and nothing else changes. |
| `Practice.Session.Start` | src/components/GenderPractice.tsx:61-65 | The first selection happens only when the pool is non-empty and nothing is current. Afterwards something is current whenever the pool is non-empty. |
| `Practice.Session.Next` | src/components/GenderPractice.tsx:87-91 | `handleNext` clears the feedback and the answered flag, then selects again. The same code is VerbsPractice.tsx:87-91. |
| `GenderPractice.GenderOptions` | src/components/GenderPractice.tsx:128 | The answer buttons are the three genders, each of them offered. |
| `GenderPractice.HandleAnswer` | src/components/GenderPractice.tsx:67-85 | With no current noun, or one already answered, nothing changes. Otherwise the count goes up by one, and the score goes up exactly when the chosen gender is the noun's gender. |
| `VerbsPractice.PersonOptions` | src/components/VerbsPractice.tsx:128 | The answer buttons are the six persons, each of them offered. |
| `VerbsPractice.HandleAnswer` | src/components/VerbsPractice.tsx:67-85 | With no current form, or one already answered, nothing changes. Otherwise the count goes up by one, and the score goes up exactly when the chosen person is the form's person. |
| `NounTranslationPractice.AddOption` | src/components/NounTranslationPractice.tsx:42-44 | `Set.add`: the word is present afterwards, nothing else is added, the earlier options keep their order, and the set grows by at most one. |
| `NounTranslationPractice.Gather` | src/components/NounTranslationPractice.tsx:39-45 | The collecting loop only appends: the options gathered so far stay in place, in order. |
| `NounTranslationPractice.OptionSet` | src/components/NounTranslationPractice.tsx:36-45 | The option set starts with the right answer. |
| `NounTranslationPractice.AddOptionWellFormed` | src/components/NounTranslationPractice.tsx:40-44 | Adding a drawn, non-empty, wrong word keeps the option set well formed. |
| `NounTranslationPractice.GatherWellFormed` | src/components/NounTranslationPractice.tsx:39-45 | The collecting loop keeps the option set well formed: the right answer first, no repeats, at most four words, and the others distractors. |
| `NounTranslationPractice.OptionSetWellFormed` | src/components/NounTranslationPractice.tsx:36-45 | The option set holds the right answer, no repeats and at most four words. Every other word is a non-empty German word of the pool that differs from the right answer. |
| `NounTranslationPractice.OptionSetBound` | src/components/NounTranslationPractice.tsx:39-45 | The option set never has more than one word plus the number of distinct qualifying words. With fewer than three such words it never reaches four, so the `while` loop never ends. |
| `NounTranslationPractice.CountOfDistinct` | src/components/NounTranslationPractice.tsx:48 | A list without repeats holds each word at most once. |
| `NounTranslationPractice.PermutationDistinct` | src/components/NounTranslationPractice.tsx:48-52 | Rearranging words without repeats leaves them without repeats. |
| `NounTranslationPractice.Shuffle` | src/components/NounTranslationPractice.tsx:49-52 | The in-place Fisher–Yates pass leaves a permutation of the array's contents. |
| `NounTranslationPractice.GenerateOptions` | src/components/NounTranslationPractice.tsx:35-55 | The options are a permutation of the collected option set. They include the right answer, have no repeats and number at most four. Every other option is a qualifying German word of the pool. |
| `NounTranslationPractice.TranslationPractice.constructor` | src/components/NounTranslationPractice.tsx:8-20 | A new screen has an empty session and no options. |
| `NounTranslationPractice.TranslationPractice.SelectRandomNoun` | src/components/NounTranslationPractice.tsx:57-81 | An empty pool changes nothing. Otherwise the session selects as the other screens do, and the options are regenerated for the chosen noun's German word. |
| `NounTranslationPractice.TranslationPractice.Start` | src/components/NounTranslationPractice.tsx:89-93 | With an empty pool or a noun already current, the used set, the current noun and the options are unchanged. Otherwise the noun comes from `NextUsed`/`Pick`, and the options are a permutation of its option set. The score, count, answered flag and feedback are unchanged. |
| `NounTranslationPractice.TranslationPractice.HandleAnswer` | src/components/NounTranslationPractice.tsx:95-113 | With no current noun, or one already answered, nothing changes. Otherwise the count goes up by one, and the score goes up exactly when the chosen word equals the noun's German word (case-sensitive). |
| `NounTranslationPractice.TranslationPractice.HandleNext` | src/components/NounTranslationPractice.tsx:115-119 | The feedback and the answered flag are cleared, then a noun is selected with fresh options. |
| `VerbTypingPractice.AnswerIgnoresPadding` | src/components/VerbTypingPractice.tsx:118 | White space typed around the answer never changes the verdict. |
| `VerbTypingPractice.AnswerIgnoresCase` | src/components/VerbTypingPractice.tsx:117-124 | The case of the typed answer, and of the stored form, never changes the verdict. |
| `VerbTypingPractice.VerbatimAccepted` | src/components/VerbTypingPractice.tsx:117-124 | A stored form without surrounding white space is accepted when typed exactly as stored. |
| `Types.Conjugation` | src/components/VerbTypingPractice.tsx:44-61 | `getPersonConjugation` returns one of the verb's six stored forms. Its `default` branch cannot be reached, because a person is one of six values. |
| `VerbTypingPractice.ImportedConjugationAccepted` | src/components/VerbTypingPractice.tsx:44-61 | For every person, the form `getPersonConjugation` returns for an imported verb is accepted when typed as stored. |
| `VerbTypingPractice.TypingPractice.constructor` | src/components/VerbTypingPractice.tsx:9-20 | A new screen has an empty session, no person, empty input and the hint hidden. |
| `VerbTypingPractice.TypingPractice.SelectVerbAndPerson` | src/components/VerbTypingPractice.tsx:63-99 | An empty pool changes nothing. Otherwise a verb is selected as on the other screens, a person is drawn from the six, and the input, answered flag, toast and hint are cleared. |
| `VerbTypingPractice.TypingPractice.Start` | src/components/VerbTypingPractice.tsx:107-111 | With an empty pool or a verb already current, nothing changes. Otherwise the verb comes from `NextUsed`/`Pick` and the person is drawn from the six, and the input, answered flag, toast and hint are cleared. The score and count are unchanged. |
| `VerbTypingPractice.TypingPractice.HandleInput` | src/components/VerbTypingPractice.tsx:247-251 | Typing changes the input only while the question is unanswered. |
| `VerbTypingPractice.TypingPractice.ToggleHint` | src/components/VerbTypingPractice.tsx:268-272 | The hint button toggles the hint only while the question is unanswered. |
| `VerbTypingPractice.TypingPractice.HandleSubmit` | src/components/VerbTypingPractice.tsx:113-136 | Nothing changes with no verb or person current, an answered question, or a blank input. Otherwise the count goes up by one, and the score goes up exactly when the trimmed, lower-cased input equals the lower-cased expected form. |
| `VerbTypingPractice.TypingPractice.HandleNext` | src/components/VerbTypingPractice.tsx:138-144 | The toast, answered flag, input and hint are cleared, then a verb and a person are selected. |

## Left out

- Network I/O is not modelled. `fetchNounsData` and `fetchVerbsData` download the CSV text and re-throw errors. The model starts from the downloaded text.
- Console output is not modelled. The `console.*` calls, including the wrong-sheet warning, only log.
- React plumbing is not modelled: state hooks, effects, the loading and error flags of `loadData`, rendering, navigation, CSS class choice, and the `setTimeout` focus in the typing screen. Each handler is one atomic method; React's update batching is not modelled.
- The distribution of `Math.random()` is not modelled. Each draw is a parameter in `[0, 1)`. Only range and membership facts are proved, not uniformity.
- `Text.Lower` models `toLowerCase` for ASCII and the Latin-1 supplement only. Other scripts, and multi-character mappings such as `ß`, are not modelled.
- `Text.ParseInt` models `parseInt(s, 10)` as leading white space, an optional sign and the longest run of digits, with `None` for `NaN`. Floating-point rounding of very long digit strings is not modelled: integers are unbounded.
- The regular expression `/^"|"$/g` is modelled as removing one quote at each end (`CsvLine.StripQuotes`).
- The home screen, the router, and the toast's timer (`src/components/Home.tsx`, `src/App.tsx`, `src/components/Toast.tsx`) are not part of this model.
- The code has no "Complete" state, no restart and no accuracy percentage. Once every index is used it recycles the pool, and the model does the same.
- `Practice.Session.Select` models the typing screen's selection by its evident intent. The code calls `setUsedIndices` inside its own updater (src/components/VerbTypingPractice.tsx:75, 78, 97); the model resets to the singleton on exhaustion and adds the pick otherwise, as on the other three screens.
- `VerbsPractice.HandleAnswer` reads a record with a person and a conjugation (`Types.PersonVerb`). The code reads `.person` and `.conjugation` on a `VerbData`, which has no such fields. With records as the importer builds them, `currentVerb.person` is `undefined`, so the comparison at src/components/VerbsPractice.tsx:73 never holds and every answer is scored wrong. The model scores by the evident intent.
- `NounTranslationPractice.GenerateOptions` may return fewer than four options. The collecting loop consumes a finite list of draws, so it may stop before four are collected. In the code the loop runs until four distinct words are collected, and `NounTranslationPractice.OptionSetBound` shows it never stops when the pool has fewer than three distinct qualifying words.
- `NounTranslationPractice.GenerateOptions` takes at least three shuffle draws, one per swap of a list of at most four options.
- `NounTranslationPractice.Shuffle` proves that the result is a permutation of its input. It does not state the exact arrangement or its uniformity.
- The feedback and toast messages are modelled as strings, but no property of their wording is proved.
- No worked example on a concrete sheet is given. Literal string computations are costly for the prover. The general round-trip lemmas cover such examples, such as a line with a quoted field holding a comma.
- `SheetsData.DecodeVerbRow` follows the code in leaving the sie/Sie column out of the row-width check (src/utils/sheetsData.ts:173-181). A row too short to reach that column gets an empty sie/Sie form.
