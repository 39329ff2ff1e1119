/**
 * SAPP_GoogleSheets.py: read the day's processed file, fill in missing
 * topics and sentiments, reformat the review dates, split each row's topics
 * into a "Positive" and a "Negative" column by its sentiment, and turn the
 * table into the grid of strings sent to the spreadsheet.
 *
 * The spreadsheet call itself is not modelled: the result is the grid it
 * would receive. Pandas' date parser is a parameter.
 */
module Publisher {
  import opened Wrappers
  import opened PyStr
  import opened Tables
  import Clock
  import Enrichment
  import Labels
  import Scraper

  /** How the script ends: the file is absent, a column lookup raises, or the grid goes out. */
  datatype Published = NotFound | Crash | Upload(grid: seq<seq<string>>)

  /** `fillna(v)` on one column: every missing cell becomes `v` and present cells are kept. */
  function FillNa(cells: seq<Cell>, v: string): (r: seq<Cell>)
    ensures |r| == |cells|
    ensures forall i :: 0 <= i < |r| ==> r[i].Text?
    ensures forall i :: 0 <= i < |r| && cells[i].Missing? ==> r[i] == Text(v)
    ensures forall i :: 0 <= i < |r| && cells[i].Text? ==> r[i] == cells[i]
  {
    seq(|cells|, i requires 0 <= i < |cells| => FillCell(cells[i], v))
  }

  /** `fillna(v)` on one cell. */
  function FillCell(c: Cell, v: string): Cell {
    if c.Missing? then Text(v) else c
  }

  /** `str` of one cell: a missing value prints as "nan". */
  function Show(c: Cell): string {
    match c
    case Missing => "nan"
    case Text(s) => s
  }

  /**
   * Line 35 on one cell: parse the date, NaT when it does not parse, and
   * print it day first. A parsed date outside four-digit years counts as NaT.
   */
  function RenderAt(c: Cell, parse: Cell -> Option<Clock.Civil>): (r: Cell)
    ensures parse(c).Some? && Clock.Valid(parse(c).value) ==> r == Text(Clock.FormatDayFirst(parse(c).value))
    ensures !(parse(c).Some? && Clock.Valid(parse(c).value)) ==> r == Missing
    ensures r.Text? ==> Clock.IsDayFirst(r.s)
  {
    match parse(c)
    case None => Missing
    case Some(d) => if Clock.Valid(d) then Text(Clock.FormatDayFirst(d)) else Missing
  }

  /**
   * `categorize_topics` (lines 42-48): a row's topics go to exactly one side
   * when its sentiment mentions "Positive" or "Negative" (the first word
   * winning), and to neither otherwise.
   */
  function SplitTopics(sentiment: string, topics: string): (sides: (string, string))
    ensures sides.0 == "" || sides.1 == ""
    ensures sides.0 + sides.1 == if Contains(sentiment, "Positive") || Contains(sentiment, "Negative") then topics else ""
    ensures Contains(sentiment, "Positive") ==> sides == (topics, "")
    ensures !Contains(sentiment, "Positive") && Contains(sentiment, "Negative") ==> sides == ("", topics)
  {
    if Contains(sentiment, "Positive") then (topics, "")
    else if Contains(sentiment, "Negative") then ("", topics)
    else ("", "")
  }

  /** The three labels the enrichment stage writes land on the expected sides. */
  lemma LabelSides(topics: string)
    ensures SplitTopics("Positive", topics) == (topics, "")
    ensures SplitTopics("Negative", topics) == ("", topics)
    ensures SplitTopics("Unknown", topics) == ("", "")
  {
    assert OccursAt("Positive", "Positive", 0);
    assert OccursAt("Negative", "Negative", 0);
    assert !Contains("Negative", "Positive") by {
      forall k ensures !OccursAt("Negative", "Positive", k) {
        if 0 <= k && k + 8 <= 8 {
          assert "Negative"[0] != "Positive"[0];
        }
      }
    }
    assert !Contains("Unknown", "Positive") && !Contains("Unknown", "Negative") by {
      assert |"Unknown"| < 8;
    }
  }

  /** A day-first date rendered from a parsed date reads back as that date. */
  lemma RenderAtReadsBack(c: Cell, parse: Cell -> Option<Clock.Civil>)
    requires parse(c).Some? && Clock.Valid(parse(c).value)
    ensures RenderAt(c, parse).Text?
    ensures Clock.ReadDayFirst(RenderAt(c, parse).s) == (parse(c).value.month, parse(c).value.day, parse(c).value.year)
  {
    Clock.DayFirstRoundTrip(parse(c).value);
  }

  /** Lines 30-31: "topics" gets "" and "sentiment" gets "Unknown" where missing; nothing else changes. */
  function Filled(t: Table): (r: Table)
    requires WellFormed(t) && HasColumn(t, "topics") && HasColumn(t, "sentiment")
    ensures WellFormed(r) && r.columns == t.columns && |r.rows| == |t.rows|
    ensures Named(r, "topics") == FillNa(Named(t, "topics"), "")
    ensures Named(r, "sentiment") == FillNa(Named(t, "sentiment"), "Unknown")
    ensures forall c :: c != "topics" && c != "sentiment" && HasColumn(t, c) ==>
      HasColumn(r, c) && Named(r, c) == Named(t, c)
  {
    var topics := FillNa(Named(t, "topics"), "");
    var withTopics := SetColumn(t, "topics", topics);
    SetColumnKeepsAll(t, "topics", topics);
    var sentiments := FillNa(Named(withTopics, "sentiment"), "Unknown");
    SetColumnKeepsAll(withTopics, "sentiment", sentiments);
    SetColumn(withTopics, "sentiment", sentiments)
  }

  /**
   * A row whose sentiment is missing is filled with "Unknown" and so puts
   * its topics on neither side, whatever the date rendering does.
   */
  lemma MissingSentimentNoSides(t: Table, parse: Cell -> Option<Clock.Civil>, i: int)
    requires WellFormed(t) && HasColumn(t, "topics") && HasColumn(t, "sentiment")
    requires 0 <= i < |t.rows| && Named(t, "sentiment")[i].Missing?
    ensures Named(Sides(Dated(Filled(t), parse)), "Positive")[i] == Text("")
    ensures Named(Sides(Dated(Filled(t), parse)), "Negative")[i] == Text("")
  {
    var filled := Filled(t);
    var dated := Dated(filled, parse);
    assert Named(dated, "sentiment") == Named(filled, "sentiment");
    assert Named(dated, "sentiment")[i] == Text("Unknown");
    LabelSides(Show(Named(dated, "topics")[i]));
  }

  /** Lines 34-35: the "at" column, when there is one, rendered day first. */
  function Dated(t: Table, parse: Cell -> Option<Clock.Civil>): (r: Table)
    requires WellFormed(t)
    ensures WellFormed(r) && r.columns == t.columns && |r.rows| == |t.rows|
    ensures forall c :: c != "at" && HasColumn(t, c) ==> Named(r, c) == Named(t, c)
    ensures HasColumn(t, "at") ==>
      forall i :: 0 <= i < |r.rows| ==> Named(r, "at")[i] == RenderAt(Named(t, "at")[i], parse)
  {
    if HasColumn(t, "at") then
      var at := Named(t, "at");
      var values := seq(|at|, i requires 0 <= i < |at| => RenderAt(at[i], parse));
      SetColumnKeepsAll(t, "at", values);
      SetColumn(t, "at", values)
    else t
  }

  /** Line 50: the two side columns, appended or overwritten. */
  function Sides(t: Table): (r: Table)
    requires WellFormed(t) && HasColumn(t, "sentiment") && HasColumn(t, "topics")
    ensures WellFormed(r) && |r.rows| == |t.rows| && t.columns <= r.columns
    ensures r.columns == WithColumn(WithColumn(t.columns, "Positive"), "Negative")
    ensures HasColumn(r, "Positive") && HasColumn(r, "Negative")
    ensures forall c :: c != "Positive" && c != "Negative" && HasColumn(t, c) ==>
      HasColumn(r, c) && Named(r, c) == Named(t, c)
    ensures forall i :: 0 <= i < |r.rows| ==>
      var sides := SplitTopics(Show(Named(t, "sentiment")[i]), Show(Named(t, "topics")[i]));
      Named(r, "Positive")[i] == Text(sides.0) && Named(r, "Negative")[i] == Text(sides.1)
  {
    var sentiment := Named(t, "sentiment");
    var topics := Named(t, "topics");
    var positive := seq(|t.rows|, i requires 0 <= i < |t.rows| => Text(SplitTopics(Show(sentiment[i]), Show(topics[i])).0));
    var negative := seq(|t.rows|, i requires 0 <= i < |t.rows| => Text(SplitTopics(Show(sentiment[i]), Show(topics[i])).1));
    SetTwoColumns(t, "Positive", positive, "Negative", negative);
    SetColumn(SetColumn(t, "Positive", positive), "Negative", negative)
  }

  /** Line 57: the header, then every row printed cell by cell. */
  function Grid(t: Table): (g: seq<seq<string>>)
    ensures |g| == |t.rows| + 1 && g[0] == t.columns
    ensures forall i :: 1 <= i < |g| ==> |g[i]| == |t.rows[i - 1]|
  {
    [t.columns] + seq(|t.rows|, i requires 0 <= i < |t.rows| =>
      seq(|t.rows[i]|, j requires 0 <= j < |t.rows[i]| => Show(t.rows[i][j])))
  }

  /**
   * The script from line 16 to line 57, up to the upload. Nothing is found
   * exactly when the processed file is absent; the upload happens exactly
   * when the file is well formed and has the four columns the script looks
   * up. The grid then has one line more than the file has rows, its header
   * is the file's columns with "Positive" and "Negative" added, and every
   * row's topics sit on the side its label names.
   */
  function Publish(files: map<string, Table>, app: string, day: Clock.Civil, parse: Cell -> Option<Clock.Civil>): (p: Published)
    requires Clock.Valid(day)
    ensures var path := Enrichment.OutputPath(app, day);
      && (p == NotFound <==> path !in files)
      && (p.Upload? <==>
            path in files && WellFormed(files[path]) && HasColumn(files[path], "topics") &&
            HasColumn(files[path], "sentiment") && HasColumn(files[path], "at") && HasColumn(files[path], "content"))
      && (p.Upload? ==>
            |p.grid| == |files[path].rows| + 1 &&
            files[path].columns <= p.grid[0] &&
            p.grid[0] == WithColumn(WithColumn(files[path].columns, "Positive"), "Negative") &&
            SidesAgree(p.grid))
  {
    var path := Enrichment.OutputPath(app, day);
    if path !in files then NotFound
    else if !WellFormed(files[path]) || !HasColumn(files[path], "topics") || !HasColumn(files[path], "sentiment") then Crash
    else
      var dated := Dated(Filled(files[path]), parse);
      if !HasColumn(dated, "at") || !HasColumn(dated, "content") then Crash
      else
        UploadedGrid(files[path], parse);
        Upload(Grid(Sides(dated)))
  }

  /** The grid built from a file that reaches the upload. */
  lemma UploadedGrid(t: Table, parse: Cell -> Option<Clock.Civil>)
    requires WellFormed(t) && HasColumn(t, "topics") && HasColumn(t, "sentiment")
    ensures var g := Grid(Sides(Dated(Filled(t), parse)));
      && |g| == |t.rows| + 1
      && t.columns <= g[0]
      && g[0] == WithColumn(WithColumn(t.columns, "Positive"), "Negative")
      && SidesAgree(g)
  {
    GridSidesAgree(Dated(Filled(t), parse));
  }

  // ---------------------------------------------------------------------
  // What the uploaded grid looks like

  /** Where `name` sits in a header; -1 when it is absent. */
  function Position(header: seq<string>, name: string): (k: int)
    ensures -1 <= k < |header|
    ensures 0 <= k ==> header[k] == name
    ensures k == -1 <==> name !in header
  {
    match ColIndex(header, name)
    case None => -1
    case Some(k) => k
  }

  /**
   * A grid whose header has the four columns, whose rows are as wide as the
   * header, and in whose every row the "Positive" and "Negative" entries are
   * the split of that row's topics by its sentiment.
   */
  predicate SidesAgree(g: seq<seq<string>>) {
    && g != []
    && 0 <= Position(g[0], "sentiment") && 0 <= Position(g[0], "topics")
    && 0 <= Position(g[0], "Positive") && 0 <= Position(g[0], "Negative")
    && (forall i :: 1 <= i < |g| ==> |g[i]| == |g[0]|)
    && (forall i :: 1 <= i < |g| ==>
          SplitTopics(g[i][Position(g[0], "sentiment")], g[i][Position(g[0], "topics")])
            == (g[i][Position(g[0], "Positive")], g[i][Position(g[0], "Negative")]))
  }

  /** A grid entry is the printed cell of its column. */
  lemma GridEntry(r: Table, name: string, i: int)
    requires WellFormed(r) && HasColumn(r, name) && 1 <= i <= |r.rows|
    ensures Grid(r)[i][ColIndex(r.columns, name).value] == Show(Named(r, name)[i - 1])
  {
  }

  lemma GridSidesAgree(t: Table)
    requires WellFormed(t) && HasColumn(t, "sentiment") && HasColumn(t, "topics")
    requires forall i :: 0 <= i < |t.rows| ==> Named(t, "sentiment")[i].Text? && Named(t, "topics")[i].Text?
    ensures SidesAgree(Grid(Sides(t)))
  {
    SidesRows(t);
    GridShowsSides(Sides(t));
  }

  /** Each row of the table with sides splits its own topics by its own label. */
  lemma SidesRows(t: Table)
    requires WellFormed(t) && HasColumn(t, "sentiment") && HasColumn(t, "topics")
    requires forall i :: 0 <= i < |t.rows| ==> Named(t, "sentiment")[i].Text? && Named(t, "topics")[i].Text?
    ensures var r := Sides(t);
      && HasColumn(r, "sentiment") && HasColumn(r, "topics")
      && forall i :: 0 <= i < |r.rows| ==>
           SplitTopics(Show(Named(r, "sentiment")[i]), Show(Named(r, "topics")[i]))
             == (Show(Named(r, "Positive")[i]), Show(Named(r, "Negative")[i]))
  {
    var r := Sides(t);
    assert Named(r, "sentiment") == Named(t, "sentiment");
    assert Named(r, "topics") == Named(t, "topics");
  }

  lemma GridShowsSides(r: Table)
    requires WellFormed(r)
    requires HasColumn(r, "sentiment") && HasColumn(r, "topics") && HasColumn(r, "Positive") && HasColumn(r, "Negative")
    requires forall i :: 0 <= i < |r.rows| ==>
      SplitTopics(Show(Named(r, "sentiment")[i]), Show(Named(r, "topics")[i]))
        == (Show(Named(r, "Positive")[i]), Show(Named(r, "Negative")[i]))
    ensures SidesAgree(Grid(r))
  {
    var g := Grid(r);
    forall i | 1 <= i < |g|
      ensures g[i][Position(g[0], "sentiment")] == Show(Named(r, "sentiment")[i - 1])
      ensures g[i][Position(g[0], "topics")] == Show(Named(r, "topics")[i - 1])
      ensures g[i][Position(g[0], "Positive")] == Show(Named(r, "Positive")[i - 1])
      ensures g[i][Position(g[0], "Negative")] == Show(Named(r, "Negative")[i - 1])
    {
      GridEntry(r, "sentiment", i);
      GridEntry(r, "topics", i);
      GridEntry(r, "Positive", i);
      GridEntry(r, "Negative", i);
    }
  }

  /** A grid with an "at" column, rows as wide as the header, and "nan" or a dd/mm/yyyy date in every row's "at" entry. */
  predicate DatesShown(g: seq<seq<string>>) {
    && g != [] && 0 <= Position(g[0], "at")
    && (forall i :: 1 <= i < |g| ==> |g[i]| == |g[0]|)
    && (forall i :: 1 <= i < |g| ==>
          g[i][Position(g[0], "at")] == "nan" || Clock.IsDayFirst(g[i][Position(g[0], "at")]))
  }

  /** A cell the date rendering can produce: missing, or a dd/mm/yyyy date. */
  predicate DayFirstOrMissing(c: Cell) {
    c.Missing? || Clock.IsDayFirst(c.s)
  }

  lemma GridDates(t: Table, parse: Cell -> Option<Clock.Civil>)
    requires WellFormed(t) && HasColumn(t, "at") && HasColumn(t, "sentiment") && HasColumn(t, "topics")
    ensures DatesShown(Grid(Sides(Dated(t, parse))))
  {
    var dated := Dated(t, parse);
    var r := Sides(dated);
    assert Named(r, "at") == Named(dated, "at");
    forall i | 0 <= i < |r.rows| ensures DayFirstOrMissing(Named(r, "at")[i]) {
      assert Named(dated, "at")[i] == RenderAt(Named(t, "at")[i], parse);
    }
    GridShowsDates(r);
  }

  lemma GridShowsDates(r: Table)
    requires WellFormed(r) && HasColumn(r, "at")
    requires forall i :: 0 <= i < |r.rows| ==> DayFirstOrMissing(Named(r, "at")[i])
    ensures DatesShown(Grid(r))
  {
    var g := Grid(r);
    forall i | 1 <= i < |g|
      ensures g[i][Position(g[0], "at")] == Show(Named(r, "at")[i - 1])
    {
      GridEntry(r, "at", i);
    }
  }

  /**
   * What a file cell of column `name` becomes by the time it is printed:
   * the date rendering for "at", the fill for "topics" and "sentiment", and
   * the cell itself for every other column.
   */
  function UploadedCell(name: string, c: Cell, parse: Cell -> Option<Clock.Civil>): Cell {
    if name == "at" then RenderAt(c, parse)
    else if name == "topics" then FillCell(c, "")
    else if name == "sentiment" then FillCell(c, "Unknown")
    else c
  }

  /**
   * `r` keeps every column of `t` other than the two side columns, with
   * each cell as `UploadedCell` makes it.
   */
  ghost predicate TableCarries(t: Table, r: Table, parse: Cell -> Option<Clock.Civil>) {
    && WellFormed(t) && WellFormed(r) && |r.rows| == |t.rows|
    && forall c :: c != "Positive" && c != "Negative" && HasColumn(t, c) ==>
         && HasColumn(r, c)
         && forall i :: 0 <= i < |t.rows| ==> Named(r, c)[i] == UploadedCell(c, Named(t, c)[i], parse)
  }

  /**
   * Grid line `i` (after the header) shows file row `i - 1`: in every column
   * of the file other than the two side columns, the printed `UploadedCell`.
   */
  ghost predicate GridCarries(t: Table, g: seq<seq<string>>, parse: Cell -> Option<Clock.Civil>) {
    && WellFormed(t) && |g| == |t.rows| + 1
    && forall c :: c != "Positive" && c != "Negative" && HasColumn(t, c) ==>
         && 0 <= Position(g[0], c)
         && forall i :: 1 <= i < |g| ==>
              Position(g[0], c) < |g[i]| && g[i][Position(g[0], c)] == Show(UploadedCell(c, Named(t, c)[i - 1], parse))
  }

  lemma TableCarriesCells(t: Table, parse: Cell -> Option<Clock.Civil>)
    requires WellFormed(t) && HasColumn(t, "topics") && HasColumn(t, "sentiment")
    ensures TableCarries(t, Sides(Dated(Filled(t), parse)), parse)
  {
    forall c | c != "Positive" && c != "Negative" && HasColumn(t, c)
      ensures HasColumn(Sides(Dated(Filled(t), parse)), c)
      ensures forall i :: 0 <= i < |t.rows| ==>
        Named(Sides(Dated(Filled(t), parse)), c)[i] == UploadedCell(c, Named(t, c)[i], parse)
    {
      ColumnCarried(t, parse, c);
    }
  }

  /** One column of the file through the fill, the date rendering and the side columns. */
  lemma ColumnCarried(t: Table, parse: Cell -> Option<Clock.Civil>, c: string)
    requires WellFormed(t) && HasColumn(t, "topics") && HasColumn(t, "sentiment")
    requires c != "Positive" && c != "Negative" && HasColumn(t, c)
    ensures HasColumn(Sides(Dated(Filled(t), parse)), c)
    ensures forall i :: 0 <= i < |t.rows| ==>
      Named(Sides(Dated(Filled(t), parse)), c)[i] == UploadedCell(c, Named(t, c)[i], parse)
  {
    var filled := Filled(t);
    var dated := Dated(filled, parse);
    assert Named(Sides(dated), c) == Named(dated, c);
    if c == "at" {
      assert Named(filled, c) == Named(t, c);
    } else {
      assert Named(dated, c) == Named(filled, c);
    }
  }

  lemma GridCarriesCells(t: Table, r: Table, parse: Cell -> Option<Clock.Civil>)
    requires TableCarries(t, r, parse)
    ensures GridCarries(t, Grid(r), parse)
  {
    var g := Grid(r);
    forall c, i | c != "Positive" && c != "Negative" && HasColumn(t, c) && 1 <= i < |g|
      ensures 0 <= Position(g[0], c) < |g[i]|
      ensures g[i][Position(g[0], c)] == Show(UploadedCell(c, Named(t, c)[i - 1], parse))
    {
      GridEntry(r, c, i);
    }
  }

  /**
   * End to end: every line of an uploaded grid after the header prints the
   * file row of the same number, filled and with its date rendered, in the
   * column of the same name.
   */
  lemma UploadedRows(files: map<string, Table>, app: string, day: Clock.Civil, parse: Cell -> Option<Clock.Civil>)
    requires Clock.Valid(day)
    requires Publish(files, app, day, parse).Upload?
    ensures GridCarries(files[Enrichment.OutputPath(app, day)], Publish(files, app, day, parse).grid, parse)
  {
    var t := files[Enrichment.OutputPath(app, day)];
    TableCarriesCells(t, parse);
    GridCarriesCells(t, Sides(Dated(Filled(t), parse)), parse);
  }

  /** Every date in an uploaded grid is "nan" or a day-first date. */
  lemma UploadedDates(files: map<string, Table>, app: string, day: Clock.Civil, parse: Cell -> Option<Clock.Civil>)
    requires Clock.Valid(day)
    requires Publish(files, app, day, parse).Upload?
    ensures DatesShown(Publish(files, app, day, parse).grid)
  {
    GridDates(Filled(files[Enrichment.OutputPath(app, day)]), parse);
  }

  /**
   * The stages fit together: the processed file the enrichment stage makes
   * from a raw file the scraper wrote always reaches the upload, with every
   * row's topics on the side its label names, under a header of the four
   * scraped columns, the two enrichment columns and the two side columns.
   */
  lemma PipelineUploads(files: map<string, Table>, app: string, day: Clock.Civil, parse: Cell -> Option<Clock.Civil>,
                        reviews: seq<Scraper.Review>, showScore: int -> string, showAt: int -> string,
                        sentimentOf: Cell -> Labels.SentimentReply, topicsOf: Cell -> Enrichment.TopicReply)
    requires Clock.Valid(day)
    requires Enrichment.EnrichTable(Enrichment.RawTable(reviews, showScore, showAt), sentimentOf, topicsOf).Some?
    requires Enrichment.OutputPath(app, day) in files
    requires files[Enrichment.OutputPath(app, day)] ==
      Reread(Enrichment.EnrichTable(Enrichment.RawTable(reviews, showScore, showAt), sentimentOf, topicsOf).value)
    ensures Publish(files, app, day, parse).Upload?
    ensures |Publish(files, app, day, parse).grid| == |reviews| + 1
    ensures SidesAgree(Publish(files, app, day, parse).grid)
    ensures Publish(files, app, day, parse).grid[0] ==
      ["userName", "score", "at", "content", "sentiment", "topics", "Positive", "Negative"]
  {
    var raw := Enrichment.RawTable(reviews, showScore, showAt);
    Enrichment.EnrichTableHeader(raw, sentimentOf, topicsOf);
    ProcessedHeader();
    ProcessedFileShape(Enrichment.EnrichTable(raw, sentimentOf, topicsOf).value);
    ProcessedHeaderWithSides();
  }

  /** Neither side column is among the processed file's, so both are appended in order. */
  lemma ProcessedHeaderWithSides()
    ensures WithColumn(WithColumn(["userName", "score", "at", "content", "sentiment", "topics"], "Positive"), "Negative") ==
      ["userName", "score", "at", "content", "sentiment", "topics", "Positive", "Negative"]
  {
    var six := ["userName", "score", "at", "content", "sentiment", "topics"];
    assert "Positive" !in six by {
      assert forall c :: c in six ==> c[0] != 'P';
    }
    var seven := six + ["Positive"];
    assert "Negative" !in seven by {
      assert forall c :: c in seven ==> c[0] != 'N';
    }
  }

  /** The processed file, as read back, keeps its rows and its header, so the script finds the four columns it looks up. */
  lemma ProcessedFileShape(e: Table)
    requires WellFormed(e) && e.columns == ["userName", "score", "at", "content", "sentiment", "topics"]
    ensures var t := Reread(e);
      && WellFormed(t) && |t.rows| == |e.rows| && t.columns == e.columns
      && HasColumn(t, "topics") && HasColumn(t, "sentiment") && HasColumn(t, "at") && HasColumn(t, "content")
  {
    var t := Reread(e);
    ColIndexUnique(t, 2);
    ColIndexUnique(t, 3);
    ColIndexUnique(t, 4);
    ColIndexUnique(t, 5);
  }

  /** Neither enrichment column is among the scraped ones, so both are appended in order. */
  lemma ProcessedHeader()
    ensures WithColumn(WithColumn(["userName", "score", "at", "content"], "sentiment"), "topics") ==
      ["userName", "score", "at", "content", "sentiment", "topics"]
  {
    var four := ["userName", "score", "at", "content"];
    assert "sentiment" !in four by {
      assert forall c :: c in four ==> |c| != 9;
    }
    var five := four + ["sentiment"];
    assert "topics" !in five by {
      assert forall c :: c in five ==> c[0] != 't';
    }
  }
}
