/** The spreadsheet exports, read back by an RFC 4180 reader. */
module Csv {
  import opened Outcomes

  const QUOTE: char := '"'

  const LF: char := '\n'

  const BOM: string := "\U{FEFF}"

  /** A cell's value as the column extractor hands it over; null and undefined print as nothing. */
  type Cell = Option<string>

  function Text(cell: Cell): string {
    if cell.Some? then cell.value else ""
  }

  function Texts(row: seq<Cell>): seq<string> {
    seq(|row|, i requires 0 <= i < |row| => Text(row[i]))
  }

  // ---------- the exporter ----------

  /** Quotes are doubled. */
  function Doubled(s: string): string {
    if |s| == 0 then ""
    else Doubled(s[..|s| - 1]) + (if s[|s| - 1] == QUOTE then [QUOTE, QUOTE] else [s[|s| - 1]])
  }

  predicate NeedsQuotes(s: string) {
    QUOTE in s || ',' in s || LF in s
  }

  function Escape(cell: Cell): string {
    if NeedsQuotes(Text(cell)) then [QUOTE] + Doubled(Text(cell)) + [QUOTE] else Text(cell)
  }

  function Join(parts: seq<string>, sep: char): string {
    if |parts| == 0 then ""
    else if |parts| == 1 then parts[0]
    else Join(parts[..|parts| - 1], sep) + [sep] + parts[|parts| - 1]
  }

  function PrintRow(sep: char, row: seq<Cell>): string {
    Join(seq(|row|, i requires 0 <= i < |row| => Escape(row[i])), sep)
  }

  function PrintRows(sep: char, rows: seq<seq<Cell>>): string {
    Join(seq(|rows|, i requires 0 <= i < |rows| => PrintRow(sep, rows[i])), LF)
  }

  function Print(sep: char, header: seq<Cell>, rows: seq<seq<Cell>>): string {
    PrintRow(sep, header) + [LF] + PrintRows(sep, rows)
  }

  function ExportCsv(header: seq<Cell>, rows: seq<seq<Cell>>): string {
    BOM + Print(',', header, rows)
  }

  function ExportXlsx(header: seq<Cell>, rows: seq<seq<Cell>>): string {
    BOM + Print('\t', header, rows)
  }

  lemma {:induction false} DoubledLength(s: string)
    ensures |Doubled(s)| == |s| + multiset(s)['"']
  {
    if |s| > 0 {
      DoubledLength(s[..|s| - 1]);
      assert s == s[..|s| - 1] + [s[|s| - 1]];
    }
  }

  /** A missing value prints as nothing; only a quote, a comma or a line feed puts a cell between quotes. */
  lemma CellLaw(s: string)
    ensures Text(None) == Escape(None) == "" && Text(Some(s)) == s
    ensures var out := Escape(Some(s));
      if '"' in s || ',' in s || '\n' in s
      then |out| == |s| + multiset(s)['"'] + 2 && out[0] == '"' && out[|out| - 1] == '"'
      else out == s
  {
    DoubledLength(s);
  }

  /** Both files begin with a byte order mark; cells stand between separators and rows between line feeds. */
  lemma FileLaw(a: Cell, b: Cell, c: Cell, d: Cell)
    ensures ExportCsv([a, b], [[c, d]]) ==
      "\U{FEFF}" + (Escape(a) + "," + Escape(b) + "\n" + (Escape(c) + "," + Escape(d)))
    ensures ExportXlsx([a, b], [[c, d]]) ==
      "\U{FEFF}" + (Escape(a) + "\t" + Escape(b) + "\n" + (Escape(c) + "\t" + Escape(d)))
  {
    SquareLaw(',', a, b, c, d);
    SquareLaw('\t', a, b, c, d);
  }

  lemma SquareLaw(sep: char, a: Cell, b: Cell, c: Cell, d: Cell)
    ensures Print(sep, [a, b], [[c, d]]) ==
      Escape(a) + [sep] + Escape(b) + "\n" + (Escape(c) + [sep] + Escape(d))
  {
    PairLaw(sep, a, b);
    PairLaw(sep, c, d);
  }

  lemma PairLaw(sep: char, a: Cell, b: Cell)
    ensures PrintRow(sep, [a, b]) == Escape(a) + [sep] + Escape(b)
    ensures PrintRows(sep, [[a, b]]) == PrintRow(sep, [a, b])
  {
    PrintRowGrows(sep, [a, b]);
    assert [a, b][..1] == [a];
  }

  // ---------- the reader: rules 5 to 7 of section 2 of RFC 4180, records separated by LF ----------

  /** Where in a field the reader is: before it, in its bare text, between its quotes, just behind a quote. */
  datatype Mode = Before | Bare | Quoted | Behind

  datatype Reader =
    | Reader(records: seq<seq<string>>, fields: seq<string>, field: string, mode: Mode)
    | Malformed

  function EndField(r: Reader): Reader
    requires r.Reader?
  {
    r.(fields := r.fields + [r.field], field := "", mode := Before)
  }

  function EndRecord(r: Reader): Reader
    requires r.Reader?
  {
    Reader(r.records + [r.fields + [r.field]], [], "", Before)
  }

  function Feed1(sep: char, r: Reader, c: char): Reader {
    match r
    case Malformed => Malformed
    case Reader(_, _, field, mode) =>
      match mode
      case Quoted => if c == QUOTE then r.(mode := Behind) else r.(field := field + [c])
      case _ =>
        if c == sep then EndField(r)
        else if c == LF then EndRecord(r)
        else if c == QUOTE then
          if mode.Before? then r.(mode := Quoted)
          else if mode.Behind? then r.(field := field + [QUOTE], mode := Quoted)
          else Malformed
        else if mode.Behind? then Malformed
        else r.(field := field + [c], mode := Bare)
  }

  function Feed(sep: char, r: Reader, text: string): Reader {
    if |text| == 0 then r else Feed1(sep, Feed(sep, r, text[..|text| - 1]), text[|text| - 1])
  }

  function Empty(): Reader { Reader([], [], "", Before) }

  /**
   * A line feed stands between two records, as the exporter writes it. Rule 2, by which the last record may have a
   * line break behind it as well, is left to ReadClosed below. A carriage return is an ordinary character here, as it
   * is to the exporter, which does not quote for it; a reader that ends lines at it would split such a cell.
   */
  function Read(sep: char, text: string): Option<seq<seq<string>>> {
    var r := Feed(sep, Empty(), text);
    if r.Malformed? || r.mode.Quoted? then None else Some(EndRecord(r).records)
  }

  /** A byte order mark in front is not part of the text. */
  function WithoutMark(file: string): string {
    if BOM <= file then file[|BOM|..] else file
  }

  function ReadFile(sep: char, file: string): Option<seq<seq<string>>> {
    Read(sep, WithoutMark(file))
  }

  /** The same reader with rule 2 as well: a line break at the very end closes the last record and opens no other. */
  function ReadClosed(sep: char, text: string): Option<seq<seq<string>>> {
    Read(sep, if |text| > 0 && text[|text| - 1] == LF then text[..|text| - 1] else text)
  }

  function ReadClosedFile(sep: char, file: string): Option<seq<seq<string>>> {
    ReadClosed(sep, WithoutMark(file))
  }

  // ---------- what the reader makes of a printed table ----------

  function Split(sep: char, s: string): (pieces: seq<string>)
    ensures |pieces| >= 1
    ensures |pieces| == 1 <==> sep !in s
    ensures |pieces| == 1 ==> pieces == [s]
  {
    if |s| == 0 then [""]
    else
      var front, c := Split(sep, s[..|s| - 1]), s[|s| - 1];
      assert s == s[..|s| - 1] + [c];
      if c == sep then front + [""] else front[..|front| - 1] + [front[|front| - 1] + [c]]
  }

  /** The fields one printed cell reads back as. */
  function Pieces(sep: char, cell: Cell): (pieces: seq<string>)
    ensures |pieces| >= 1
  {
    if NeedsQuotes(Text(cell)) then [Text(cell)] else Split(sep, Text(cell))
  }

  function Explode(sep: char, row: seq<Cell>): seq<string> {
    if |row| == 0 then [] else Explode(sep, row[..|row| - 1]) + Pieces(sep, row[|row| - 1])
  }

  function ExplodeAll(sep: char, rows: seq<seq<Cell>>): seq<seq<string>> {
    seq(|rows|, i requires 0 <= i < |rows| => Explode(sep, rows[i]))
  }

  /** The separator occurs only in cells that are quoted for another reason. */
  ghost predicate Tidy(sep: char, row: seq<Cell>) {
    forall i :: 0 <= i < |row| ==> (sep in Text(row[i]) ==> NeedsQuotes(Text(row[i])))
  }

  lemma {:induction false} FeedConcat(sep: char, r: Reader, a: string, b: string)
    ensures Feed(sep, r, a + b) == Feed(sep, Feed(sep, r, a), b)
  {
    if |b| == 0 {
      assert a + b == a;
    } else {
      FeedConcat(sep, r, a, b[..|b| - 1]);
      assert (a + b)[..|a + b| - 1] == a + b[..|b| - 1];
    }
  }

  lemma FeedSnoc(sep: char, r: Reader, a: string, c: char)
    ensures Feed(sep, r, a + [c]) == Feed1(sep, Feed(sep, r, a), c)
  {
    assert (a + [c])[..|a|] == a;
  }

  lemma FeedOne(sep: char, r: Reader, c: char)
    ensures Feed(sep, r, [c]) == Feed1(sep, r, c)
  {
    FeedSnoc(sep, r, "", c);
    assert "" + [c] == [c];
  }

  /** `r` holds everything up to the end of a field: `start` and the pieces of one more. */
  ghost predicate Holds(r: Reader, start: Reader, pieces: seq<string>) {
    && r.Reader? && start.Reader? && !r.mode.Quoted?
    && r.records == start.records && r.fields + [r.field] == start.fields + pieces
  }

  ghost predicate AtFieldStart(r: Reader) {
    r.Reader? && r.mode.Before? && r.field == ""
  }

  lemma DoubledGrows(s: string)
    requires |s| > 0
    ensures Doubled(s) ==
      if s[|s| - 1] == QUOTE then (Doubled(s[..|s| - 1]) + [QUOTE]) + [QUOTE] else Doubled(s[..|s| - 1]) + [s[|s| - 1]]
  {
  }

  lemma FeedQuotedChar(sep: char, r: Reader, a: string, c: char)
    requires Feed(sep, r, a).Reader? && Feed(sep, r, a).mode.Quoted? && sep != QUOTE
    ensures var before := Feed(sep, r, a);
            Feed(sep, r, if c == QUOTE then (a + [QUOTE]) + [QUOTE] else a + [c]) ==
            before.(field := before.field + [c])
  {
    FeedSnoc(sep, r, a, c);
    FeedSnoc(sep, r, a + [QUOTE], QUOTE);
  }

  lemma {:induction false} FeedDoubled(sep: char, r: Reader, s: string)
    requires r.Reader? && r.mode.Quoted? && sep != QUOTE
    ensures Feed(sep, r, Doubled(s)) == r.(field := r.field + s)
  {
    if |s| == 0 {
      assert r.field + s == r.field;
    } else {
      var front, c := s[..|s| - 1], s[|s| - 1];
      FeedDoubled(sep, r, front);
      DoubledGrows(s);
      FeedQuotedChar(sep, r, Doubled(front), c);
      assert s == front + [c];
      assert r.field + (front + [c]) == (r.field + front) + [c];
    }
  }

  lemma LastIsHeld<T>(fields: seq<T>, field: T, start: seq<T>, pieces: seq<T>)
    requires fields + [field] == start + pieces && |pieces| >= 1
    ensures fields == start + pieces[..|pieces| - 1] && field == pieces[|pieces| - 1]
  {
    assert (fields + [field])[|fields|] == (start + pieces)[|start + pieces| - 1];
    assert (fields + [field])[..|fields|] == (start + pieces)[..|start + pieces| - 1];
  }

  lemma {:induction false} FeedBare(sep: char, r: Reader, s: string)
    requires AtFieldStart(r) && QUOTE !in s && LF !in s
    ensures var after := Feed(sep, r, s);
            Holds(after, r, Split(sep, s)) && (after.mode.Before? || after.mode.Bare?)
  {
    if |s| > 0 {
      var front, c := s[..|s| - 1], s[|s| - 1];
      FeedBare(sep, r, front);
      var before, pieces := Feed(sep, r, front), Split(sep, front);
      LastIsHeld(before.fields, before.field, r.fields, pieces);
      if c == sep {
        assert r.fields + (pieces + [""]) == (r.fields + pieces) + [""];
      } else {
        var grown := before.field + [c];
        assert r.fields + (pieces[..|pieces| - 1] + [grown]) == (r.fields + pieces[..|pieces| - 1]) + [grown];
      }
    }
  }

  lemma FeedQuotedCell(sep: char, r: Reader, s: string)
    requires AtFieldStart(r) && sep != QUOTE && sep != LF
    ensures Feed(sep, r, [QUOTE] + Doubled(s) + [QUOTE]) == r.(field := s, mode := Behind)
  {
    FeedOne(sep, r, QUOTE);
    FeedConcat(sep, r, [QUOTE], Doubled(s));
    FeedDoubled(sep, r.(mode := Quoted), s);
    FeedSnoc(sep, r, [QUOTE] + Doubled(s), QUOTE);
    assert r.field + s == s;
  }

  lemma FeedCell(sep: char, r: Reader, cell: Cell)
    requires AtFieldStart(r) && sep != QUOTE && sep != LF
    ensures Holds(Feed(sep, r, Escape(cell)), r, Pieces(sep, cell))
  {
    if NeedsQuotes(Text(cell)) {
      FeedQuotedCell(sep, r, Text(cell));
    } else {
      FeedBare(sep, r, Text(cell));
    }
  }

  lemma HoldsOn(r: Reader, middle: Reader, start: Reader, pieces: seq<string>, more: seq<string>)
    requires Holds(r, middle, more) && start.Reader?
    requires middle.records == start.records && middle.fields == start.fields + pieces
    ensures Holds(r, start, pieces + more)
  {
    assert (start.fields + pieces) + more == start.fields + (pieces + more);
  }

  /** One more cell behind a separator. */
  lemma FeedNextCell(sep: char, r: Reader, line: string, pieces: seq<string>, cell: Cell)
    requires sep != QUOTE && sep != LF && Holds(Feed(sep, r, line), r, pieces)
    ensures Holds(Feed(sep, r, line + [sep] + Escape(cell)), r, pieces + Pieces(sep, cell))
  {
    FeedSnoc(sep, r, line, sep);
    FeedConcat(sep, r, line + [sep], Escape(cell));
    var next := Feed(sep, r, line + [sep]);
    assert next == EndField(Feed(sep, r, line));
    FeedCell(sep, next, cell);
    HoldsOn(Feed(sep, next, Escape(cell)), next, r, pieces, Pieces(sep, cell));
  }

  lemma {:induction false} FeedRow(sep: char, r: Reader, row: seq<Cell>)
    requires AtFieldStart(r) && sep != QUOTE && sep != LF && |row| >= 1
    ensures Holds(Feed(sep, r, PrintRow(sep, row)), r, Explode(sep, row))
  {
    var front, last := row[..|row| - 1], row[|row| - 1];
    if |front| == 0 {
      FeedCell(sep, r, last);
      assert Explode(sep, front) + Pieces(sep, last) == Pieces(sep, last);
    } else {
      FeedRow(sep, r, front);
      PrintRowGrows(sep, row);
      FeedNextCell(sep, r, PrintRow(sep, front), Explode(sep, front), last);
    }
  }

  lemma PrintRowGrows(sep: char, row: seq<Cell>)
    requires |row| >= 2
    ensures PrintRow(sep, row) == PrintRow(sep, row[..|row| - 1]) + [sep] + Escape(row[|row| - 1])
  {
    var cells := seq(|row|, i requires 0 <= i < |row| => Escape(row[i]));
    var front := row[..|row| - 1];
    assert cells[..|row| - 1] == seq(|front|, i requires 0 <= i < |front| => Escape(front[i]));
  }

  lemma PrintRowsGrows(sep: char, rows: seq<seq<Cell>>)
    requires |rows| >= 2
    ensures PrintRows(sep, rows) == PrintRows(sep, rows[..|rows| - 1]) + [LF] + PrintRow(sep, rows[|rows| - 1])
  {
    var lines := seq(|rows|, i requires 0 <= i < |rows| => PrintRow(sep, rows[i]));
    var front := rows[..|rows| - 1];
    assert lines[..|rows| - 1] == seq(|front|, i requires 0 <= i < |front| => PrintRow(sep, front[i]));
  }

  /** Between records: what has been read is whole. */
  ghost predicate AtRecordStart(r: Reader) {
    AtFieldStart(r) && r.fields == []
  }

  /** `r` holds whole records and the last fields of one more. */
  ghost predicate HoldsRecords(r: Reader, start: Reader, records: seq<seq<string>>) {
    && r.Reader? && start.Reader? && !r.mode.Quoted?
    && EndRecord(r).records == start.records + records
  }

  lemma FeedFirstRow(sep: char, r: Reader, row: seq<Cell>)
    requires AtRecordStart(r) && sep != QUOTE && sep != LF && |row| >= 1
    ensures HoldsRecords(Feed(sep, r, PrintRow(sep, row)), r, [Explode(sep, row)])
  {
    FeedRow(sep, r, row);
    assert r.fields + Explode(sep, row) == Explode(sep, row);
  }

  /** One more record behind a line feed. */
  lemma FeedNextRow(sep: char, r: Reader, text: string, records: seq<seq<string>>, row: seq<Cell>)
    requires sep != QUOTE && sep != LF && |row| >= 1 && HoldsRecords(Feed(sep, r, text), r, records)
    ensures HoldsRecords(Feed(sep, r, text + [LF] + PrintRow(sep, row)), r, records + [Explode(sep, row)])
  {
    var next := EndRecord(Feed(sep, r, text));
    FeedSnoc(sep, r, text, LF);
    FeedConcat(sep, r, text + [LF], PrintRow(sep, row));
    FeedFirstRow(sep, next, row);
    assert (r.records + records) + [Explode(sep, row)] == r.records + (records + [Explode(sep, row)]);
  }

  lemma ExplodeAllGrows(sep: char, rows: seq<seq<Cell>>)
    requires |rows| >= 1
    ensures ExplodeAll(sep, rows) == ExplodeAll(sep, rows[..|rows| - 1]) + [Explode(sep, rows[|rows| - 1])]
  {
  }

  lemma {:induction false} FeedRows(sep: char, r: Reader, rows: seq<seq<Cell>>)
    requires AtRecordStart(r) && sep != QUOTE && sep != LF
    requires |rows| >= 1 && forall i :: 0 <= i < |rows| ==> |rows[i]| >= 1
    ensures HoldsRecords(Feed(sep, r, PrintRows(sep, rows)), r, ExplodeAll(sep, rows))
  {
    var front, last := rows[..|rows| - 1], rows[|rows| - 1];
    ExplodeAllGrows(sep, rows);
    if |front| == 0 {
      FeedFirstRow(sep, r, last);
      PrintOneRow(sep, rows);
    } else {
      FeedRows(sep, r, front);
      PrintRowsGrows(sep, rows);
      FeedNextRow(sep, r, PrintRows(sep, front), ExplodeAll(sep, front), last);
    }
  }

  lemma PrintOneRow(sep: char, rows: seq<seq<Cell>>)
    requires |rows| == 1
    ensures PrintRows(sep, rows) == PrintRow(sep, rows[0])
    ensures ExplodeAll(sep, rows) == [Explode(sep, rows[0])]
  {
  }

  /** Whatever the separator, a printed table reads back as its cells, each split where it holds a bare separator. */
  lemma ReadsExploded(sep: char, header: seq<Cell>, rows: seq<seq<Cell>>)
    requires sep != QUOTE && sep != LF
    requires |header| >= 1 && |rows| >= 1 && forall i :: 0 <= i < |rows| ==> |rows[i]| >= 1
    ensures Read(sep, Print(sep, header, rows)) == Some(ExplodeAll(sep, [header] + rows))
  {
    var all := [header] + rows;
    FeedRows(sep, Empty(), all);
    PrintIsOneTable(sep, header, rows);
    assert Empty().records + ExplodeAll(sep, all) == ExplodeAll(sep, all);
  }

  lemma {:induction false} PrintIsOneTable(sep: char, header: seq<Cell>, rows: seq<seq<Cell>>)
    requires |rows| >= 1
    ensures Print(sep, header, rows) == PrintRows(sep, [header] + rows)
  {
    var all, front, last := [header] + rows, rows[..|rows| - 1], rows[|rows| - 1];
    PrintRowsGrows(sep, all);
    assert all[..|all| - 1] == [header] + front && all[|all| - 1] == last;
    if |front| == 0 {
      assert [header] + front == [header];
    } else {
      PrintIsOneTable(sep, header, front);
      PrintRowsGrows(sep, rows);
      Regroup(PrintRow(sep, header) + [LF], PrintRows(sep, front) + [LF], PrintRow(sep, last));
      Regroup(PrintRow(sep, header) + [LF], PrintRows(sep, front), [LF]);
    }
  }

  lemma Regroup(a: string, b: string, c: string)
    ensures a + (b + c) == a + b + c
  {
  }

  // ---------- round trips ----------

  lemma TidyGrows(sep: char, row: seq<Cell>)
    requires |row| > 0
    ensures var last := Text(row[|row| - 1]);
            Tidy(sep, row) <==> Tidy(sep, row[..|row| - 1]) && (sep in last ==> NeedsQuotes(last))
  {
  }

  lemma {:induction false} ExplodeIsLonger(sep: char, row: seq<Cell>)
    ensures |Explode(sep, row)| >= |row|
    ensures |Explode(sep, row)| == |row| <==> Tidy(sep, row)
  {
    if |row| > 0 {
      ExplodeIsLonger(sep, row[..|row| - 1]);
      TidyGrows(sep, row);
    }
  }

  lemma {:induction false} TidyExplodesToTexts(sep: char, row: seq<Cell>)
    requires Tidy(sep, row)
    ensures Explode(sep, row) == Texts(row)
  {
    if |row| > 0 {
      var front, last := row[..|row| - 1], row[|row| - 1];
      TidyGrows(sep, row);
      TidyExplodesToTexts(sep, front);
      assert Texts(row) == Texts(front) + [Text(last)];
    }
  }

  lemma ExplodeIsTextsIff(sep: char, row: seq<Cell>)
    ensures Explode(sep, row) == Texts(row) <==> Tidy(sep, row)
  {
    ExplodeIsLonger(sep, row);
    if Tidy(sep, row) {
      TidyExplodesToTexts(sep, row);
    }
  }

  ghost predicate Table(header: seq<Cell>, rows: seq<seq<Cell>>) {
    forall i :: 0 <= i < |rows| ==> |rows[i]| == |header|
  }

  function Strings(rows: seq<seq<Cell>>): seq<seq<string>> {
    seq(|rows|, i requires 0 <= i < |rows| => Texts(rows[i]))
  }

  ghost predicate AllTidy(sep: char, rows: seq<seq<Cell>>) {
    forall i :: 0 <= i < |rows| ==> Tidy(sep, rows[i])
  }

  lemma ExplodeAllIsStringsIff(sep: char, rows: seq<seq<Cell>>)
    ensures ExplodeAll(sep, rows) == Strings(rows) <==> AllTidy(sep, rows)
  {
    forall i: nat | i < |rows| ensures ExplodeAll(sep, rows)[i] == Strings(rows)[i] <==> Tidy(sep, rows[i]) {
      ExplodeIsTextsIff(sep, rows[i]);
    }
  }

  ghost predicate Filled(r: Reader) {
    r.Reader? ==> forall k :: 0 <= k < |r.records| ==> |r.records[k]| >= 1
  }

  lemma {:induction false} RecordsAreFilled(sep: char, r: Reader, text: string)
    requires Filled(r)
    ensures Filled(Feed(sep, r, text))
  {
    if |text| > 0 {
      RecordsAreFilled(sep, r, text[..|text| - 1]);
    }
  }

  lemma EveryRecordHasAField(sep: char, text: string)
    ensures Read(sep, text).Some? ==> |Read(sep, text).value| >= 1 && |Read(sep, text).value[0]| >= 1
  {
    RecordsAreFilled(sep, Empty(), text);
  }

  /** With no rows the line break behind the header reads as the start of a second, phantom record. */
  lemma PhantomRecord(sep: char, header: seq<Cell>)
    requires |header| >= 1 && sep != QUOTE && sep != LF
    ensures Read(sep, Print(sep, header, [])) == Some([Explode(sep, header), [""]])
  {
    var line := PrintRow(sep, header);
    var r := Feed(sep, Empty(), line);
    assert Print(sep, header, []) == line + [LF];
    FeedFirstRow(sep, Empty(), header);
    FeedSnoc(sep, Empty(), line, LF);
    assert Empty().records + [Explode(sep, header)] == [Explode(sep, header)];
    var next := EndRecord(r);
    assert next.fields + [next.field] == [""];
    assert Feed(sep, Empty(), line + [LF]) == next;
    assert next.records + [next.fields + [next.field]] == [Explode(sep, header), [""]];
  }

  lemma RoundTripIff(sep: char, header: seq<Cell>, rows: seq<seq<Cell>>)
    requires sep != QUOTE && sep != LF && Table(header, rows)
    ensures Read(sep, Print(sep, header, rows)) == Some(Strings([header] + rows)) <==>
      |header| >= 1 && |rows| >= 1 && AllTidy(sep, [header] + rows)
  {
    if |header| == 0 {
      EveryRecordHasAField(sep, Print(sep, header, rows));
      assert |Strings([header] + rows)[0]| == 0;
    } else if |rows| == 0 {
      PhantomRecord(sep, header);
      assert |Strings([header] + rows)| == 1;
    } else {
      ReadsExploded(sep, header, rows);
      ExplodeAllIsStringsIff(sep, [header] + rows);
    }
  }

  /** A CSV export reads back as exactly its strings when, and only when, it has a column and a row. */
  lemma CsvRoundTripIff(header: seq<Cell>, rows: seq<seq<Cell>>)
    requires Table(header, rows)
    ensures ReadFile(',', ExportCsv(header, rows)) == Some(Strings([header] + rows)) <==>
      |header| >= 1 && |rows| >= 1
  {
    assert ExportCsv(header, rows)[|BOM|..] == Print(',', header, rows);
    RoundTripIff(',', header, rows);
  }

  /**
   * The tab-separated export escapes for commas: it also needs every tab to sit in a cell quoted for another reason.
   */
  lemma XlsxRoundTripIff(header: seq<Cell>, rows: seq<seq<Cell>>)
    requires Table(header, rows)
    ensures ReadFile('\t', ExportXlsx(header, rows)) == Some(Strings([header] + rows)) <==>
      |header| >= 1 && |rows| >= 1 && AllTidy('\t', [header] + rows)
  {
    assert ExportXlsx(header, rows)[|BOM|..] == Print('\t', header, rows);
    RoundTripIff('\t', header, rows);
  }

  // ---------- with an optional line break at the end ----------

  lemma EscapeEnds(cell: Cell)
    ensures Escape(cell) == "" <==> Text(cell) == ""
    ensures Escape(cell) != "" ==> Escape(cell)[|Escape(cell)| - 1] != LF
  {
  }

  /** A printed row is empty only for a single empty cell, and never ends in a line feed. */
  lemma PrintRowEnds(sep: char, row: seq<Cell>)
    requires |row| >= 1 && sep != LF
    ensures var line := PrintRow(sep, row);
            && (line == "" <==> |row| == 1 && Text(row[0]) == "")
            && (line != "" ==> line[|line| - 1] != LF)
  {
    EscapeEnds(row[|row| - 1]);
    if |row| >= 2 {
      PrintRowGrows(sep, row);
    }
  }

  /** The last line of the table is blank: one column, and nothing in its last cell. */
  predicate EndsBlank(rows: seq<seq<Cell>>) {
    |rows| >= 1 && |rows[|rows| - 1]| == 1 && Text(rows[|rows| - 1][0]) == ""
  }

  lemma ClosedReadOfBlank(sep: char, header: seq<Cell>, rows: seq<seq<Cell>>)
    requires sep != QUOTE && sep != LF && Table(header, rows) && |header| >= 1 && EndsBlank(rows)
    ensures var r := ReadClosed(sep, Print(sep, header, rows));
            r.Some? && |r.value| == |rows|
  {
    var all := [header] + rows;
    var front := all[..|all| - 1];
    PrintIsOneTable(sep, header, rows);
    PrintRowsGrows(sep, all);
    PrintRowEnds(sep, rows[|rows| - 1]);
    var text := Print(sep, header, rows);
    assert text == PrintRows(sep, front) + [LF];
    assert text[..|text| - 1] == PrintRows(sep, front);
    FeedRows(sep, Empty(), front);
    assert Empty().records + ExplodeAll(sep, front) == ExplodeAll(sep, front);
  }

  lemma ClosedReadOfText(sep: char, header: seq<Cell>, rows: seq<seq<Cell>>)
    requires sep != LF && Table(header, rows) && |header| >= 1 && |rows| >= 1 && !EndsBlank(rows)
    ensures ReadClosed(sep, Print(sep, header, rows)) == Read(sep, Print(sep, header, rows))
  {
    var all := [header] + rows;
    PrintIsOneTable(sep, header, rows);
    PrintRowsGrows(sep, all);
    PrintRowEnds(sep, rows[|rows| - 1]);
  }

  lemma ClosedReadOfHeader(sep: char, header: seq<Cell>)
    requires sep != QUOTE && sep != LF && |header| >= 1
    ensures ReadClosed(sep, Print(sep, header, [])) == Some([Explode(sep, header)])
  {
    var line := PrintRow(sep, header);
    assert Print(sep, header, []) == line + [LF];
    assert (line + [LF])[..|line|] == line;
    FeedFirstRow(sep, Empty(), header);
    assert Empty().records + [Explode(sep, header)] == [Explode(sep, header)];
  }

  lemma ClosedRoundTripIff(sep: char, header: seq<Cell>, rows: seq<seq<Cell>>)
    requires sep != QUOTE && sep != LF && Table(header, rows)
    ensures ReadClosed(sep, Print(sep, header, rows)) == Some(Strings([header] + rows)) <==>
      |header| >= 1 && !EndsBlank(rows) && AllTidy(sep, [header] + rows)
  {
    var text := Print(sep, header, rows);
    if |header| == 0 {
      EveryRecordHasAField(sep, text);
      EveryRecordHasAField(sep, text[..|text| - 1]);
      assert |Strings([header] + rows)[0]| == 0;
    } else if |rows| == 0 {
      ClosedReadOfHeader(sep, header);
      assert [header] + rows == [header];
      ExplodeAllIsStringsIff(sep, [header]);
      PrintOneRow(sep, [header]);
    } else if EndsBlank(rows) {
      ClosedReadOfBlank(sep, header, rows);
      assert |Strings([header] + rows)| == |rows| + 1;
    } else {
      ClosedReadOfText(sep, header, rows);
      RoundTripIff(sep, header, rows);
    }
  }

  /**
   * To a reader that lets the last record have a line break behind it, an export without rows reads back as its
   * header alone; what is lost instead is a last line that is blank.
   */
  lemma ClosedCsvRoundTripIff(header: seq<Cell>, rows: seq<seq<Cell>>)
    requires Table(header, rows)
    ensures ReadClosedFile(',', ExportCsv(header, rows)) == Some(Strings([header] + rows)) <==>
      |header| >= 1 && !EndsBlank(rows)
  {
    assert ExportCsv(header, rows)[|BOM|..] == Print(',', header, rows);
    ClosedRoundTripIff(',', header, rows);
  }

  lemma SplitSnoc(sep: char, s: string, c: char)
    ensures var front := Split(sep, s);
            Split(sep, s + [c]) ==
            if c == sep then front + [""] else front[..|front| - 1] + [front[|front| - 1] + [c]]
  {
    assert (s + [c])[..|s|] == s;
  }

  lemma SplitInTwo(sep: char, left: string, right: char)
    requires sep !in left && right != sep
    ensures Split(sep, left + [sep] + [right]) == [left, [right]]
  {
    SplitSnoc(sep, left, sep);
    SplitSnoc(sep, left + [sep], right);
    var pieces := Split(sep, left + [sep]);
    assert |pieces| == 2 && pieces[0] == left && pieces[1] + [right] == [right];
    assert pieces[..1] == [left];
  }

  lemma ExplodeOne(sep: char, cell: Cell)
    ensures Explode(sep, [cell]) == Pieces(sep, cell)
  {
    assert [cell][..0] == [];
  }

  /** For instance: a bare tab in a cell splits its column in two. */
  lemma BareTabSplits(left: string, right: char)
    requires '\t' !in left && right != '\t' && !NeedsQuotes(left + ['\t'] + [right])
    ensures Explode('\t', [Some(left + ['\t'] + [right])]) == [left, [right]]
  {
    SplitInTwo('\t', left, right);
    ExplodeOne('\t', Some(left + ['\t'] + [right]));
  }
}
