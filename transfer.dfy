/** Text import and export of cards: the quote-aware CSV field scanner, tab splitting for TSV
    and Quizlet, header detection, and the CSV, TSV and Quizlet writers. */
module Transfer {
  import opened Text
  import opened Cards

  /** The text formats; the JSON format is handled by `JSON.parse`/`JSON.stringify`. */
  datatype Format = Csv | Tsv | Quizlet

  // ---------------------------------------------------------------- reading one CSV line

  /** The CSV scanner on the unread part `rest` of a line, from the state it keeps: the fields
      finished so far, the field being read and whether it is inside quotes. */
  function Scan(rest: string, fields: seq<string>, cur: string, inQuotes: bool): (r: seq<string>)
    ensures |r| > |fields|
    decreases |rest|
  {
    if rest == [] then fields + [Trim(cur)]
    else if rest[0] == '"' then
      if inQuotes && |rest| > 1 && rest[1] == '"' then Scan(rest[2..], fields, cur + ['"'], inQuotes)
      else Scan(rest[1..], fields, cur, !inQuotes)
    else if rest[0] == ',' && !inQuotes then Scan(rest[1..], fields + [Trim(cur)], "", inQuotes)
    else Scan(rest[1..], fields, cur + [rest[0]], inQuotes)
  }

  /** The fields of one CSV line. */
  function CsvFields(line: string): seq<string> {
    Scan(line, [], "", false)
  }

  predicate AllTrimmed(fs: seq<string>) {
    forall i | 0 <= i < |fs| :: IsTrimmed(fs[i])
  }

  lemma {:induction false} ScanTrimmed(rest: string, fields: seq<string>, cur: string, inQuotes: bool)
    requires AllTrimmed(fields)
    ensures AllTrimmed(Scan(rest, fields, cur, inQuotes))
    decreases |rest|
  {
    if rest == [] {
      AllTrimmedSnoc(fields, Trim(cur));
    } else if rest[0] == '"' {
      if inQuotes && |rest| > 1 && rest[1] == '"' {
        ScanTrimmed(rest[2..], fields, cur + ['"'], inQuotes);
      } else {
        ScanTrimmed(rest[1..], fields, cur, !inQuotes);
      }
    } else if rest[0] == ',' && !inQuotes {
      AllTrimmedSnoc(fields, Trim(cur));
      ScanTrimmed(rest[1..], fields + [Trim(cur)], "", inQuotes);
    } else {
      ScanTrimmed(rest[1..], fields, cur + [rest[0]], inQuotes);
    }
  }

  lemma AllTrimmedSnoc(fs: seq<string>, f: string)
    requires AllTrimmed(fs) && IsTrimmed(f)
    ensures AllTrimmed(fs + [f])
  {
  }

  /** Every field the scanner produces is trimmed, and there is at least one. */
  lemma CsvFieldsTrimmed(line: string)
    ensures |CsvFields(line)| >= 1
    ensures AllTrimmed(CsvFields(line))
  {
    ScanTrimmed(line, [], "", false);
  }

  /** The character loop of `importCards` for one CSV line. */
  method ParseCsvLine(line: string) returns (fields: seq<string>)
    ensures fields == CsvFields(line)
  {
    fields := [];
    var current := "";
    var inQuotes := false;
    var i := 0;
    while i < |line|
      invariant 0 <= i <= |line|
      invariant Scan(line[i..], fields, current, inQuotes) == CsvFields(line)
      decreases |line| - i
    {
      var ch := line[i];
      assert line[i..][0] == ch && line[i..][1..] == line[i + 1..];
      if ch == '"' {
        if inQuotes && i + 1 < |line| && line[i + 1] == '"' {
          assert line[i..][1] == line[i + 1] && line[i..][2..] == line[i + 2..];
          current := current + ['"'];
          i := i + 1;
        } else {
          inQuotes := !inQuotes;
        }
      } else if ch == ',' && !inQuotes {
        fields := fields + [Trim(current)];
        current := "";
      } else {
        current := current + [ch];
      }
      i := i + 1;
    }
    fields := fields + [Trim(current)];
  }

  // ---------------------------------------------------------------- writing a CSV line

  /** `str.replace(/"/g, '""')`. */
  function DoubleQuotes(s: string): (r: string)
    ensures '\n' !in s ==> '\n' !in r
  {
    if s == [] then [] else (if s[0] == '"' then "\"\"" else [s[0]]) + DoubleQuotes(s[1..])
  }

  /** `escapeCsv`: the text in double quotes with every quote doubled. */
  function EscapeCsv(s: string): (r: string)
    ensures |r| >= 2 && r[0] == '"' && r[|r| - 1] == '"'
  {
    "\"" + DoubleQuotes(s) + "\""
  }

  /** The escaped fields joined by commas. */
  function CsvLine(fs: seq<string>): string {
    if fs == [] then ""
    else if |fs| == 1 then EscapeCsv(fs[0])
    else EscapeCsv(fs[0]) + "," + CsvLine(fs[1..])
  }

  /** `fs.map(f => f.trim())`. */
  function TrimAll(fs: seq<string>): (r: seq<string>)
    ensures |r| == |fs|
  {
    if fs == [] then [] else [Trim(fs[0])] + TrimAll(fs[1..])
  }

  lemma {:induction false} TrimAllTrimmed(fs: seq<string>)
    ensures AllTrimmed(TrimAll(fs))
  {
    if fs != [] {
      TrimAllTrimmed(fs[1..]);
      var r := TrimAll(fs);
      assert forall i | 1 <= i < |r| :: r[i] == TrimAll(fs[1..])[i - 1];
    }
  }

  /** Inside quotes, a doubled quote reads as one quote and the closing quote ends the field. */
  lemma {:induction false} ScanQuoted(s: string, rest: string, fields: seq<string>, cur: string)
    requires rest == [] || rest[0] != '"'
    ensures Scan(DoubleQuotes(s) + "\"" + rest, fields, cur, true) == Scan(rest, fields, cur + s, false)
    decreases |s|
  {
    if s == [] {
      assert DoubleQuotes(s) + "\"" + rest == "\"" + rest;
      ScanClosingQuote(rest, fields, cur);
      assert cur + s == cur;
    } else {
      ScanQuoted(s[1..], rest, fields, cur + [s[0]]);
      assert cur + [s[0]] + s[1..] == cur + s;
      if s[0] == '"' {
        ScanQuotedQuote(s, rest, fields, cur);
      } else {
        ScanQuotedOther(s, rest, fields, cur);
      }
    }
  }

  lemma ScanQuotedQuote(s: string, rest: string, fields: seq<string>, cur: string)
    requires s != [] && s[0] == '"'
    ensures Scan(DoubleQuotes(s) + "\"" + rest, fields, cur, true)
      == Scan(DoubleQuotes(s[1..]) + "\"" + rest, fields, cur + [s[0]], true)
  {
    var u := DoubleQuotes(s[1..]) + "\"" + rest;
    assert DoubleQuotes(s) + "\"" + rest == "\"\"" + u;
    ScanDoubledQuote(u, fields, cur);
  }

  lemma ScanQuotedOther(s: string, rest: string, fields: seq<string>, cur: string)
    requires s != [] && s[0] != '"'
    ensures Scan(DoubleQuotes(s) + "\"" + rest, fields, cur, true)
      == Scan(DoubleQuotes(s[1..]) + "\"" + rest, fields, cur + [s[0]], true)
  {
    var u := DoubleQuotes(s[1..]) + "\"" + rest;
    assert DoubleQuotes(s) == [s[0]] + DoubleQuotes(s[1..]);
    assert DoubleQuotes(s) + "\"" + rest == [s[0]] + u;
    ScanQuotedChar(s[0], u, fields, cur);
  }

  lemma ScanClosingQuote(rest: string, fields: seq<string>, cur: string)
    requires rest == [] || rest[0] != '"'
    ensures Scan("\"" + rest, fields, cur, true) == Scan(rest, fields, cur, false)
  {
    assert ("\"" + rest)[1..] == rest;
  }

  lemma ScanDoubledQuote(u: string, fields: seq<string>, cur: string)
    ensures Scan("\"\"" + u, fields, cur, true) == Scan(u, fields, cur + ['"'], true)
  {
    assert ("\"\"" + u)[2..] == u;
  }

  lemma ScanQuotedChar(c: char, u: string, fields: seq<string>, cur: string)
    requires c != '"'
    ensures Scan([c] + u, fields, cur, true) == Scan(u, fields, cur + [c], true)
  {
    assert ([c] + u)[1..] == u;
  }

  /** One escaped field followed by `rest` reads as the trimmed field. */
  lemma ScanEscaped(f: string, rest: string, fields: seq<string>)
    requires rest == [] || rest[0] != '"'
    ensures Scan(EscapeCsv(f) + rest, fields, "", false) == Scan(rest, fields, f, false)
  {
    var t := EscapeCsv(f) + rest;
    assert t == "\"" + (DoubleQuotes(f) + "\"" + rest);
    assert t[1..] == DoubleQuotes(f) + "\"" + rest;
    ScanQuoted(f, rest, fields, "");
    assert "" + f == f;
  }

  lemma {:induction false} ScanCsvLine(fs: seq<string>, fields: seq<string>)
    requires |fs| >= 1
    ensures Scan(CsvLine(fs), fields, "", false) == fields + TrimAll(fs)
    decreases |fs|
  {
    if |fs| == 1 {
      ScanLastField(fs[0], fields);
      assert TrimAll(fs) == [Trim(fs[0])] + TrimAll([]);
    } else {
      ScanCsvLine(fs[1..], fields + [Trim(fs[0])]);
      ScanFirstField(fs[0], CsvLine(fs[1..]), fields);
      assert fields + [Trim(fs[0])] + TrimAll(fs[1..]) == fields + ([Trim(fs[0])] + TrimAll(fs[1..]));
    }
  }

  lemma ScanLastField(f: string, fields: seq<string>)
    ensures Scan(EscapeCsv(f), fields, "", false) == fields + [Trim(f)]
  {
    ScanEscaped(f, [], fields);
    assert EscapeCsv(f) + [] == EscapeCsv(f);
  }

  lemma ScanFirstField(f: string, rest: string, fields: seq<string>)
    ensures Scan(EscapeCsv(f) + "," + rest, fields, "", false) == Scan(rest, fields + [Trim(f)], "", false)
  {
    ScanEscaped(f, "," + rest, fields);
    assert EscapeCsv(f) + "," + rest == EscapeCsv(f) + ("," + rest);
    assert ("," + rest)[1..] == rest;
  }

  /** Reading back a written CSV line gives the fields, trimmed: quotes and commas inside a
      field survive the escaping. */
  lemma CsvLineRoundTrip(fs: seq<string>)
    requires |fs| >= 1
    ensures CsvFields(CsvLine(fs)) == TrimAll(fs)
  {
    ScanCsvLine(fs, []);
  }

  lemma {:induction false} CsvLineNoNewline(fs: seq<string>)
    requires forall i | 0 <= i < |fs| :: '\n' !in fs[i]
    ensures '\n' !in CsvLine(fs)
  {
    if |fs| > 1 {
      assert forall i | 0 <= i < |fs| - 1 :: fs[1..][i] == fs[i + 1];
      CsvLineNoNewline(fs[1..]);
    }
  }

  // ---------------------------------------------------------------- import

  /** Whether the first line is taken for a header and skipped. */
  predicate IsHeader(format: Format, line: string) {
    match format
    case Csv => Contains(ToLower(line), "front") || Contains(ToLower(line), "term")
    case Tsv => Contains(ToLower(line), "front")
    case Quizlet => false
  }

  /** `fields[i] || ''`: a missing field reads as empty. */
  function Field(fs: seq<string>, i: nat): string {
    if i < |fs| then fs[i] else ""
  }

  /** The fields of one line: quote-aware for CSV, split on tabs for TSV and Quizlet. */
  function RowFields(format: Format, line: string): (fs: seq<string>)
    ensures |fs| >= 1 && AllTrimmed(fs)
  {
    if format == Csv then
      CsvFieldsTrimmed(line);
      CsvFields(line)
    else
      TrimAllTrimmed(Split(line, '\t'));
      TrimAll(Split(line, '\t'))
  }

  /** The card a line stands for: none for a blank line or one with fewer than two fields. */
  function RowDraft(format: Format, line: string): (d: Option<Draft>)
    ensures d.Some? ==> (d.value.unit == "General" && IsTrimmed(d.value.front) && IsTrimmed(d.value.back)
      && IsTrimmed(d.value.translation) && IsTrimmed(d.value.example))
    ensures d.Some? <==> !IsBlank(line) && |RowFields(format, line)| >= 2
  {
    if IsBlank(line) then None
    else
      var fs := RowFields(format, line);
      if |fs| >= 2 then Some(Draft(fs[0], fs[1], Field(fs, 2), Field(fs, 3), "General")) else None
  }

  /** The drafts of the lines, in order: `dataLines.forEach(...)` pushing each accepted row. */
  function ParseRows(format: Format, lines: seq<string>): (ds: seq<Draft>)
    ensures |ds| <= |lines|
  {
    if lines == [] then []
    else
      var last := RowDraft(format, lines[|lines| - 1]);
      ParseRows(format, lines[..|lines| - 1]) + (if last.Some? then [last.value] else [])
  }

  /** The lines of the pasted text after trimming, without the header line if there is one. */
  function DataLines(format: Format, text: string): seq<string> {
    var lines := Split(Trim(text), '\n');
    if IsHeader(format, lines[0]) then lines[1..] else lines
  }

  /** The cards an import yields; `None` when the text is blank or no line is a valid row,
      the two cases the import refuses. */
  function ImportDrafts(format: Format, text: string): (r: Option<seq<Draft>>)
    ensures r.Some? ==> |r.value| > 0
    ensures IsBlank(text) ==> r.None?
  {
    TrimBlank(text);
    if Trim(text) == [] then None
    else
      var ds := ParseRows(format, DataLines(format, text));
      if ds == [] then None else Some(ds)
  }

  lemma {:induction false} ParseRowsClean(format: Format, lines: seq<string>)
    ensures forall i | 0 <= i < |ParseRows(format, lines)| ::
      var d := ParseRows(format, lines)[i];
      d.unit == "General" && IsTrimmed(d.front) && IsTrimmed(d.back)
  {
    if lines != [] {
      ParseRowsClean(format, lines[..|lines| - 1]);
    }
  }

  /** Every imported card is put in unit 'General' with trimmed text. */
  lemma ImportedClean(format: Format, text: string)
    ensures var r := ImportDrafts(format, text);
      r.Some? ==> forall i | 0 <= i < |r.value| ::
        r.value[i].unit == "General" && IsTrimmed(r.value[i].front) && IsTrimmed(r.value[i].back)
  {
    if Trim(text) != [] {
      ParseRowsClean(format, DataLines(format, text));
    }
  }

  /** The row loop of `importCards` over the data lines, with the CSV lines read by the character
      loop. */
  method ImportLines(format: Format, lines: seq<string>) returns (drafts: seq<Draft>)
    ensures drafts == ParseRows(format, lines)
  {
    drafts := [];
    for k := 0 to |lines|
      invariant drafts == ParseRows(format, lines[..k])
    {
      var line := lines[k];
      assert lines[..k + 1][..k] == lines[..k];
      if !IsBlank(line) {
        var fields: seq<string>;
        if format == Csv {
          fields := ParseCsvLine(line);
        } else {
          fields := TrimAll(Split(line, '\t'));
        }
        if |fields| >= 2 {
          drafts := drafts + [Draft(fields[0], fields[1], Field(fields, 2), Field(fields, 3), "General")];
        }
      }
    }
    assert lines[..|lines|] == lines;
  }

  // ---------------------------------------------------------------- export

  /** The header lines `exportCards` writes for CSV and TSV. */
  const CsvHeader: string := "Front,Back,Translation,Example"
  const TsvHeader: string := "Front\tBack\tTranslation\tExample"

  function CardFields(c: Card): seq<string> {
    [c.front, c.back, c.translation, c.example]
  }

  /** The line written for one card, without its line break. */
  function CardLine(format: Format, c: Card): string {
    match format
    case Csv => CsvLine(CardFields(c))
    case Tsv => c.front + "\t" + c.back + "\t" + c.translation + "\t" + c.example
    case Quizlet => c.front + "\t" + c.back
  }

  /** The header block: a header line for CSV and TSV, nothing for Quizlet. */
  function Header(format: Format): string {
    match format
    case Csv => CsvHeader + "\n"
    case Tsv => TsvHeader + "\n"
    case Quizlet => ""
  }

  /** `cards.forEach(card => content += line + '\n')`. */
  function Body(format: Format, cards: seq<Card>): string {
    if cards == [] then ""
    else Body(format, cards[..|cards| - 1]) + CardLine(format, cards[|cards| - 1]) + "\n"
  }

  /** The exported file; `None` for an empty deck, which `exportCards` refuses. */
  function ExportText(format: Format, cards: seq<Card>): (r: Option<string>)
    ensures r.None? <==> cards == []
  {
    if cards == [] then None else Some(Header(format) + Body(format, cards))
  }

  lemma BodySnoc(format: Format, cards: seq<Card>, k: nat)
    requires k < |cards|
    ensures Body(format, cards[..k + 1]) == Body(format, cards[..k]) + CardLine(format, cards[k]) + "\n"
  {
    assert cards[..k + 1][..k] == cards[..k];
  }

  /** The writing loop of `exportCards`. */
  method ExportCards(format: Format, cards: seq<Card>) returns (content: Option<string>)
    ensures content == ExportText(format, cards)
  {
    if |cards| == 0 {
      return None;
    }
    var header := Header(format);
    var body := "";
    for k := 0 to |cards|
      invariant body == Body(format, cards[..k])
    {
      BodySnoc(format, cards, k);
      var line := CardLine(format, cards[k]);
      body := body + line + "\n";
    }
    var text := header + body;
    assert cards[..|cards|] == cards;
    content := Some(text);
  }

  // ---------------------------------------------------------------- round trips

  /** The draft a card is read back as: its text trimmed, its unit 'General'. */
  function ReadBack(c: Card): Draft {
    Draft(Trim(c.front), Trim(c.back), Trim(c.translation), Trim(c.example), "General")
  }

  /** A card's text holds no line break, so it stays on one line. */
  predicate OneLine(c: Card) {
    '\n' !in c.front && '\n' !in c.back && '\n' !in c.translation && '\n' !in c.example
  }

  lemma TrimAllFour(a: string, b: string, c: string, d: string)
    ensures TrimAll([a, b, c, d]) == [Trim(a), Trim(b), Trim(c), Trim(d)]
  {
    assert [a, b, c, d][1..] == [b, c, d];
    assert [b, c, d][1..] == [c, d];
    TrimAllTwo(c, d);
    assert TrimAll([b, c, d]) == [Trim(b)] + [Trim(c), Trim(d)];
  }

  lemma TrimAllTwo(a: string, b: string)
    ensures TrimAll([a, b]) == [Trim(a), Trim(b)]
  {
    assert [a, b][1..] == [b];
    assert TrimAll([b]) == [Trim(b)] + TrimAll([]);
  }

  /** A line that is not blank and has at least two fields is read as the draft of its fields. */
  lemma RowDraftOfFields(format: Format, line: string, fs: seq<string>)
    requires !IsBlank(line) && RowFields(format, line) == fs && |fs| >= 2
    ensures RowDraft(format, line) == Some(Draft(fs[0], fs[1], Field(fs, 2), Field(fs, 3), "General"))
  {
  }

  /** A written CSV line reads back as the trimmed card in unit 'General'. */
  lemma CsvCardRoundTrip(c: Card)
    ensures RowDraft(Csv, CardLine(Csv, c)) == Some(ReadBack(c))
  {
    var line := CardLine(Csv, c);
    CsvLineRoundTrip(CardFields(c));
    TrimAllFour(c.front, c.back, c.translation, c.example);
    CsvLineStartsWithQuote(CardFields(c));
    RowDraftOfFields(Csv, line, [Trim(c.front), Trim(c.back), Trim(c.translation), Trim(c.example)]);
  }

  lemma CsvLineStartsWithQuote(fs: seq<string>)
    requires fs != []
    ensures !IsBlank(CsvLine(fs))
  {
    var e := EscapeCsv(fs[0]);
    var line := CsvLine(fs);
    if |fs| > 1 {
      assert line == e + ("," + CsvLine(fs[1..]));
    }
    assert line[0] == e[0];
    QuoteNotBlank(line);
  }

  lemma QuoteNotBlank(s: string)
    requires |s| > 0 && s[0] == '"'
    ensures !IsBlank(s)
  {
    assert !IsSpace(s[0]);
  }

  /** A written TSV line reads back the same way when no field holds a tab, unless all four
      fields are blank: then the whole line is blank and is skipped. */
  lemma TsvCardRoundTrip(c: Card)
    requires '\t' !in c.front && '\t' !in c.back && '\t' !in c.translation && '\t' !in c.example
    ensures RowDraft(Tsv, CardLine(Tsv, c)) ==
      if IsBlank(c.front) && IsBlank(c.back) && IsBlank(c.translation) && IsBlank(c.example) then None
      else Some(ReadBack(c))
  {
    var fs := CardFields(c);
    var line := CardLine(Tsv, c);
    TsvLineBlank(c);
    if !IsBlank(line) {
      JoinFour(c.front, c.back, c.translation, c.example, '\t');
      SplitJoin(fs, '\t');
      TrimAllFour(c.front, c.back, c.translation, c.example);
      RowDraftOfFields(Tsv, line, [Trim(c.front), Trim(c.back), Trim(c.translation), Trim(c.example)]);
    }
  }

  /** A TSV line is blank exactly when its four fields are. */
  lemma TsvLineBlank(c: Card)
    ensures IsBlank(CardLine(Tsv, c)) <==>
      IsBlank(c.front) && IsBlank(c.back) && IsBlank(c.translation) && IsBlank(c.example)
  {
    var tab := "\t";
    assert IsBlank(tab);
    BlankConcatIff(c.front, tab);
    BlankConcatIff(c.front + tab, c.back);
    BlankConcatIff(c.front + tab + c.back, tab);
    BlankConcatIff(c.front + tab + c.back + tab, c.translation);
    BlankConcatIff(c.front + tab + c.back + tab + c.translation, tab);
    BlankConcatIff(c.front + tab + c.back + tab + c.translation + tab, c.example);
  }

  lemma JoinFour(a: string, b: string, c: string, d: string, sep: char)
    ensures Join([a, b, c, d], sep) == a + [sep] + b + [sep] + c + [sep] + d
  {
    assert [a, b, c, d][1..] == [b, c, d];
    assert [b, c, d][1..] == [c, d];
    assert [c, d][1..] == [d];
    assert Join([c, d], sep) == c + [sep] + d;
    assert Join([b, c, d], sep) == b + [sep] + (c + [sep] + d);
  }

  /** A Quizlet line reads back as front and back, with empty translation and example, unless
      both are blank: then the line is blank and is skipped. */
  lemma QuizletCardRoundTrip(c: Card)
    requires '\t' !in c.front && '\t' !in c.back
    ensures RowDraft(Quizlet, CardLine(Quizlet, c)) ==
      if IsBlank(c.front) && IsBlank(c.back) then None
      else Some(Draft(Trim(c.front), Trim(c.back), "", "", "General"))
  {
    var fs := [c.front, c.back];
    var line := CardLine(Quizlet, c);
    var tab := "\t";
    assert IsBlank(tab);
    BlankConcatIff(c.front, tab);
    BlankConcatIff(c.front + tab, c.back);
    if !IsBlank(line) {
      assert fs[1..] == [c.back];
      assert Join(fs, '\t') == line;
      SplitJoin(fs, '\t');
      TrimAllTwo(c.front, c.back);
      RowDraftOfFields(Quizlet, line, [Trim(c.front), Trim(c.back)]);
    }
  }

  /** The drafts the cards read back as. */
  function ReadBacks(cards: seq<Card>): (ds: seq<Draft>)
    ensures |ds| == |cards|
    ensures forall i | 0 <= i < |cards| :: ds[i] == ReadBack(cards[i])
  {
    seq(|cards|, i requires 0 <= i < |cards| => ReadBack(cards[i]))
  }

  /** The lines of the exported CSV rows. */
  function CsvRows(cards: seq<Card>): (rs: seq<string>)
    ensures |rs| == |cards|
  {
    seq(|cards|, i requires 0 <= i < |cards| => CardLine(Csv, cards[i]))
  }

  lemma {:induction false} JoinSnoc(ps: seq<string>, p: string, sep: char)
    requires ps != []
    ensures Join(ps + [p], sep) == Join(ps, sep) + [sep] + p
    decreases |ps|
  {
    if |ps| == 1 {
      assert (ps + [p])[1..] == [p];
    } else {
      assert (ps + [p])[1..] == ps[1..] + [p];
      JoinSnoc(ps[1..], p, sep);
    }
  }

  lemma CsvRowsSnoc(cards: seq<Card>)
    requires cards != []
    ensures CsvRows(cards) == CsvRows(cards[..|cards| - 1]) + [CardLine(Csv, cards[|cards| - 1])]
  {
  }

  lemma BodyLast(format: Format, cards: seq<Card>)
    requires cards != []
    ensures Body(format, cards) == Body(format, cards[..|cards| - 1]) + CardLine(format, cards[|cards| - 1]) + "\n"
  {
  }

  /** The body is the rows joined by line breaks, with one more line break at the end. */
  lemma {:induction false} CsvBodyJoin(cards: seq<Card>)
    requires cards != []
    ensures Body(Csv, cards) == Join(CsvRows(cards), '\n') + "\n"
    decreases |cards|
  {
    var n := |cards|;
    var init := cards[..n - 1];
    var line := CardLine(Csv, cards[n - 1]);
    BodyLast(Csv, cards);
    CsvRowsSnoc(cards);
    if n == 1 {
      assert Body(Csv, init) == "";
      assert CsvRows(cards) == [line];
    } else {
      CsvBodyJoin(init);
      JoinSnoc(CsvRows(init), line, '\n');
      var j := Join(CsvRows(init), '\n');
      assert Body(Csv, cards) == j + "\n" + line + "\n";
      assert Join(CsvRows(cards), '\n') == j + "\n" + line;
    }
  }

  lemma ReadBackSnoc(cards: seq<Card>)
    requires cards != []
    ensures ReadBacks(cards) == ReadBacks(cards[..|cards| - 1]) + [ReadBack(cards[|cards| - 1])]
  {
    var n := |cards|;
    assert ReadBacks(cards)[..n - 1] == ReadBacks(cards[..n - 1]);
  }

  lemma ParseRowsSnoc(format: Format, lines: seq<string>)
    requires lines != []
    ensures var last := RowDraft(format, lines[|lines| - 1]);
      ParseRows(format, lines) == ParseRows(format, lines[..|lines| - 1]) + (if last.Some? then [last.value] else [])
  {
  }

  lemma {:induction false} ParseCsvRows(cards: seq<Card>)
    ensures ParseRows(Csv, CsvRows(cards)) == ReadBacks(cards)
    decreases |cards|
  {
    if cards != [] {
      var n := |cards|;
      var init := cards[..n - 1];
      var rows := CsvRows(cards);
      CsvRowsSnoc(cards);
      assert rows[..n - 1] == CsvRows(init);
      assert rows[n - 1] == CardLine(Csv, cards[n - 1]);
      ParseRowsSnoc(Csv, rows);
      ParseCsvRows(init);
      CsvCardRoundTrip(cards[n - 1]);
      ReadBackSnoc(cards);
    }
  }

  lemma HeaderOneLine()
    ensures IsTrimmed(CsvHeader) && '\n' !in CsvHeader
  {
  }

  lemma HeaderIsHeader()
    ensures IsHeader(Csv, CsvHeader)
  {
    var h := CsvHeader;
    LowerSlice(h, 0, 5);
    assert h[..5] == "Front";
    LowerFront();
    assert OccursAt(ToLower(h), "front", 0);
  }

  lemma LowerFront()
    ensures ToLower("Front") == "front"
  {
    assert LowerChar('F') == 'f';
  }

  /** The exported CSV document is the header and the rows joined by line breaks, plus one. */
  lemma CsvDocument(cards: seq<Card>)
    requires cards != []
    ensures ExportText(Csv, cards).value == Join([CsvHeader] + CsvRows(cards), '\n') + "\n"
  {
    var rows := CsvRows(cards);
    var parts := [CsvHeader] + rows;
    CsvBodyJoin(cards);
    assert parts[1..] == rows;
    assert Join(parts, '\n') == CsvHeader + "\n" + Join(rows, '\n');
  }

  lemma CsvPartsOneLine(cards: seq<Card>)
    requires forall i | 0 <= i < |cards| :: OneLine(cards[i])
    ensures forall k | 0 <= k < |[CsvHeader] + CsvRows(cards)| :: '\n' !in ([CsvHeader] + CsvRows(cards))[k]
  {
    var parts := [CsvHeader] + CsvRows(cards);
    forall k | 0 <= k < |parts| ensures '\n' !in parts[k] {
      if k > 0 {
        assert parts[k] == CardLine(Csv, cards[k - 1]);
        CsvLineNoNewline(CardFields(cards[k - 1]));
      } else {
        HeaderOneLine();
      }
    }
  }

  /** The joined document starts with the header's 'F' and ends with a closing quote. */
  lemma CsvJoinTrimmed(cards: seq<Card>)
    requires cards != []
    ensures IsTrimmed(Join([CsvHeader] + CsvRows(cards), '\n'))
  {
    var rows := CsvRows(cards);
    var parts := [CsvHeader] + rows;
    var j := Join(parts, '\n');
    assert parts[|parts| - 1] == CardLine(Csv, cards[|cards| - 1]);
    CsvLineEndsWithQuote(CardFields(cards[|cards| - 1]));
    JoinEndsWithLast(parts, '\n');
    JoinStartsWithFirst(parts, '\n');
    assert CsvHeader[0] == 'F';
    EndsNotSpace(j);
  }

  lemma EndsNotSpace(s: string)
    requires |s| > 0 && s[0] == 'F' && s[|s| - 1] == '"'
    ensures IsTrimmed(s)
  {
  }

  lemma JoinStartsWithFirst(ps: seq<string>, sep: char)
    requires ps != [] && ps[0] != []
    ensures |Join(ps, sep)| > 0 && Join(ps, sep)[0] == ps[0][0]
  {
  }

  lemma {:induction false} CsvLineEndsWithQuote(fs: seq<string>)
    requires fs != []
    ensures |CsvLine(fs)| > 0 && CsvLine(fs)[|CsvLine(fs)| - 1] == '"'
    decreases |fs|
  {
    var e := EscapeCsv(fs[0]);
    if |fs| > 1 {
      CsvLineEndsWithQuote(fs[1..]);
      assert CsvLine(fs) == e + ("," + CsvLine(fs[1..]));
    } else {
      assert CsvLine(fs) == e;
    }
  }

  /** The data lines of an exported CSV document are its card rows. */
  lemma CsvDataLines(cards: seq<Card>)
    requires cards != []
    requires forall i | 0 <= i < |cards| :: OneLine(cards[i])
    ensures DataLines(Csv, ExportText(Csv, cards).value) == CsvRows(cards)
    ensures Trim(ExportText(Csv, cards).value) != []
  {
    var parts := [CsvHeader] + CsvRows(cards);
    var j := Join(parts, '\n');
    CsvDocument(cards);
    CsvJoinTrimmed(cards);
    CsvPartsOneLine(cards);
    TrimDropsTrailing(j, "\n");
    SplitJoin(parts, '\n');
    HeaderIsHeader();
    assert parts[0] == CsvHeader && parts[1..] == CsvRows(cards);
    assert j[0] == 'F';
  }

  /** Importing an exported CSV file gives back every card, in order, as its trimmed text in
      unit 'General', when no card text holds a line break: progress, ids and units are not
      part of the format. */
  lemma CsvExportImport(cards: seq<Card>)
    requires cards != []
    requires forall i | 0 <= i < |cards| :: OneLine(cards[i])
    ensures ImportDrafts(Csv, ExportText(Csv, cards).value) == Some(ReadBacks(cards))
  {
    CsvDataLines(cards);
    ParseCsvRows(cards);
  }

  lemma {:induction false} JoinEndsWithLast(ps: seq<string>, sep: char)
    requires ps != [] && ps[|ps| - 1] != []
    ensures var j := Join(ps, sep); |j| > 0 && j[|j| - 1] == ps[|ps| - 1][|ps[|ps| - 1]| - 1]
    decreases |ps|
  {
    if |ps| > 1 {
      JoinEndsWithLast(ps[1..], sep);
    }
  }

  /** A whole TSV document does not always round-trip: import trims the whole text, so the
      trailing tabs of a last card with blank back, translation and example go, the line keeps one
      field, and the card is dropped. A deck of one such card imports nothing. */
  lemma TsvTrailingBlanksLost(c: Card)
    requires c.front == "a" && c.back == "" && c.translation == "" && c.example == ""
    ensures ImportDrafts(Tsv, ExportText(Tsv, [c]).value) == None
  {
    var text := ExportText(Tsv, [c]).value;
    OneTsvCardText(c);
    TrimOneTsvCard();
    SplitOneTsvCard();
    TsvHeaderIsHeader();
    assert DataLines(Tsv, text) == ["a"];
    OneFieldRow();
    assert ParseRows(Tsv, ["a"]) == ParseRows(Tsv, []) + [];
  }

  lemma OneTsvCardText(c: Card)
    requires c.front == "a" && c.back == "" && c.translation == "" && c.example == ""
    ensures ExportText(Tsv, [c]).value == TsvHeader + "\na" + "\t\t\t\n"
  {
    assert CardLine(Tsv, c) == "a\t\t\t";
    assert Body(Tsv, [c]) == Body(Tsv, []) + "a\t\t\t" + "\n";
  }

  lemma TrimOneTsvCard()
    ensures Trim(TsvHeader + "\na" + "\t\t\t\n") == TsvHeader + "\na"
  {
    var h := TsvHeader + "\na";
    assert h[0] == 'F' && h[|h| - 1] == 'a';
    var tail := "\t\t\t\n";
    assert IsBlank(tail);
    TrimDropsTrailing(h, tail);
  }

  lemma SplitOneTsvCard()
    ensures Split(TsvHeader + "\na", '\n') == [TsvHeader, "a"]
  {
    assert '\n' !in TsvHeader;
    SplitAtSep(TsvHeader, '\n', "a");
    assert TsvHeader + "\na" == TsvHeader + ['\n'] + "a";
    SplitNoSep("a", '\n');
  }

  lemma OneFieldRow()
    ensures RowDraft(Tsv, "a") == None
  {
    SplitNoSep("a", '\t');
    assert TrimAll(["a"]) == [Trim("a")] + TrimAll([]);
  }

  lemma TsvHeaderIsHeader()
    ensures IsHeader(Tsv, TsvHeader)
  {
    var h := TsvHeader;
    LowerSlice(h, 0, 5);
    assert h[..5] == "Front";
    LowerFront();
    assert OccursAt(ToLower(h), "front", 0);
  }
}
