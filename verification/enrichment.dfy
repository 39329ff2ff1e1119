/**
 * `process_reviews` of SAPP_SentimentAnalysis.py: find today's date folder,
 * pick the raw review files in it, and for each one that has a "content"
 * column and at least one row, add a "sentiment" and a "topics" column and
 * write the result over the single processed file of the day.
 *
 * The two classifier endpoints are modelled as functions from a content
 * cell to their reply; the folder listing is a parameter, in the order the
 * operating system gives it.
 */
module Enrichment {
  import opened Wrappers
  import opened PyStr
  import opened Tables
  import Clock
  import Labels
  import Topics
  import Scraper

  /** What the topic classifier call does for one review: answer with text, or raise. */
  datatype TopicReply = TopicText(text: string) | TopicRaised

  // ---------------------------------------------------------------------
  // Paths

  /** The processed file's name, dated like its folder (line 112). */
  function ProcessedFileName(app: string, day: Clock.Civil): string
    requires Clock.Valid(day)
  {
    app + "_ReviewsProcessed_" + Clock.FormatDate(day) + ".csv"
  }

  /** The processed file, inside today's date folder (lines 106-107 and 112). */
  function OutputPath(app: string, day: Clock.Civil): string
    requires Clock.Valid(day)
  {
    PathJoin(Scraper.DailyFolder(app, day), ProcessedFileName(app, day))
  }

  /** The name test of line 113. */
  predicate IsRawFileName(app: string, name: string) {
    StartsWith(name, app + "_Reviews_") && !EndsWith(name, "Processed.csv")
  }

  /** The raw files of a folder listing, in listing order (line 113). */
  function RawFiles(app: string, listing: seq<string>): (raws: seq<string>)
    ensures |raws| <= |listing|
    ensures forall i :: 0 <= i < |raws| ==> IsRawFileName(app, raws[i])
  {
    if listing == [] then []
    else (if IsRawFileName(app, listing[0]) then [listing[0]] else []) + RawFiles(app, listing[1..])
  }

  /** A name is kept exactly when it is listed and passes the test. */
  lemma {:induction false} RawFilesMembers(app: string, listing: seq<string>)
    ensures forall f :: f in RawFiles(app, listing) <==> f in listing && IsRawFileName(app, f)
  {
    if listing != [] {
      RawFilesMembers(app, listing[1..]);
      assert listing == [listing[0]] + listing[1..];
    }
  }

  /** Every file name the scraper writes passes the raw-file test. */
  lemma ScraperFileIsRaw(app: string, stamp: Clock.Civil)
    requires Clock.Valid(stamp)
    ensures IsRawFileName(app, Scraper.RawFileName(app, stamp))
  {
    var name := Scraper.RawFileName(app, stamp);
    var s := Clock.FormatStamp(stamp);
    assert name == (app + "_Reviews_") + (s + ".csv");
    assert name[..|app| + 9] == app + "_Reviews_";
    assert name[|name| - 5] == s[18];
    assert Clock.IsDigit(s[18]);
    assert name[|name| - 13..][8] == name[|name| - 5];
    assert "Processed.csv"[8] == 'd';
  }

  /** The processed file never passes the raw-file test, so a rerun does not read its own output. */
  lemma ProcessedFileIsNotRaw(app: string, day: Clock.Civil)
    requires Clock.Valid(day)
    ensures !IsRawFileName(app, ProcessedFileName(app, day))
  {
    var p := ProcessedFileName(app, day);
    var n := |app| + 8;
    assert p[n] == 'P';
    assert (app + "_Reviews_")[n] == '_';
  }

  /**
   * The processed file lies at "<app>_CSVFiles/<MM-DD-YYYY>/<app>_ReviewsProcessed_<MM-DD-YYYY>.csv",
   * in the same folder as the day's raw files, unless the app name starts with "/".
   */
  lemma OutputPathLayout(app: string, day: Clock.Civil)
    requires Clock.Valid(day)
    ensures OutputPath(app, day) ==
      if StartsWith(app, "/") then ProcessedFileName(app, day)
      else app + "_CSVFiles/" + Clock.FormatDate(day) + "/" + app + "_ReviewsProcessed_" + Clock.FormatDate(day) + ".csv"
  {
    var rest := "_ReviewsProcessed_" + Clock.FormatDate(day) + ".csv";
    assert ProcessedFileName(app, day) == app + rest;
    Scraper.InDailyFolder(app, day, rest);
  }

  /** Reading a raw file of today's folder never reads the processed file. */
  lemma RawPathIsNotOutput(app: string, day: Clock.Civil, name: string)
    requires Clock.Valid(day) && IsRawFileName(app, name)
    ensures PathJoin(Scraper.DailyFolder(app, day), name) != OutputPath(app, day)
  {
    var p := ProcessedFileName(app, day);
    ProcessedFileIsNotRaw(app, day);
    assert name[0] == (app + "_Reviews_")[0];
    assert p[0] == (app + "_Reviews_")[0];
    assert StartsWith(name, "/") <==> name[0] == '/';
    assert StartsWith(p, "/") <==> p[0] == '/';
    PathJoinInjective(Scraper.DailyFolder(app, day), name, p);
  }

  // ---------------------------------------------------------------------
  // One table

  /**
   * The table read back from a raw file the scraper wrote (lines 105-106
   * of SAPP_Scraper.py): its four columns in order, one row per review. How
   * scores and instants are printed is a parameter.
   */
  function RawTable(reviews: seq<Scraper.Review>, showScore: int -> string, showAt: int -> string): (t: Table)
    ensures WellFormed(t) && |t.rows| == |reviews|
    ensures t.columns == ["userName", "score", "at", "content"]
    ensures HasColumn(t, "at") && HasColumn(t, "content")
    ensures forall i :: 0 <= i < |reviews| ==> Named(t, "content")[i] == CsvCell(reviews[i].content)
  {
    var t := Table(["userName", "score", "at", "content"],
      seq(|reviews|, i requires 0 <= i < |reviews| =>
        [CsvCell(reviews[i].userName), CsvCell(showScore(reviews[i].score)),
         CsvCell(showAt(reviews[i].at)), CsvCell(reviews[i].content)]));
    ColIndexUnique(t, 2);
    ColIndexUnique(t, 3);
    t
  }

  /** The other three columns of the raw table: each review's author, printed score and printed instant. */
  lemma RawTableCells(reviews: seq<Scraper.Review>, showScore: int -> string, showAt: int -> string)
    ensures var t := RawTable(reviews, showScore, showAt);
      HasColumn(t, "userName") && HasColumn(t, "score") &&
      forall i :: 0 <= i < |reviews| ==>
        && Named(t, "userName")[i] == CsvCell(reviews[i].userName)
        && Named(t, "score")[i] == CsvCell(showScore(reviews[i].score))
        && Named(t, "at")[i] == CsvCell(showAt(reviews[i].at))
  {
    var t := RawTable(reviews, showScore, showAt);
    ColIndexUnique(t, 0);
    ColIndexUnique(t, 1);
    ColIndexUnique(t, 2);
  }

  /** Some review makes the topic classifier raise. */
  predicate TopicsRaise(content: seq<Cell>, topicsOf: Cell -> TopicReply) {
    exists i :: 0 <= i < |content| && topicsOf(content[i]).TopicRaised?
  }

  /**
   * `r` is `t` with the two columns of lines 134 and 137: row by row the
   * sentiment label and the filtered topics of its content; every other
   * column unchanged, in place, and no row added or lost.
   */
  ghost predicate Enriches(t: Table, r: Table, sentimentOf: Cell -> Labels.SentimentReply, topicsOf: Cell -> TopicReply)
    requires WellFormed(t) && HasColumn(t, "content")
  {
    var content := Named(t, "content");
    && WellFormed(r) && |r.rows| == |t.rows| && t.columns <= r.columns
    && r.columns == WithColumn(WithColumn(t.columns, "sentiment"), "topics")
    && HasColumn(r, "sentiment") && HasColumn(r, "topics")
    && (forall i :: 0 <= i < |content| ==>
          Named(r, "sentiment")[i] == Text(Labels.AnalyzeSentiment(sentimentOf(content[i]))))
    && (forall i :: 0 <= i < |content| && topicsOf(content[i]).TopicText? ==>
          Named(r, "topics")[i] == Text(Topics.FilterTopics(topicsOf(content[i]).text)))
    && (forall c :: c != "sentiment" && c != "topics" && HasColumn(t, c) ==>
          HasColumn(r, c) && Named(r, c) == Named(t, c))
  }

  /**
   * Lines 134 and 137 on one table: label every row, then classify every
   * row's topics; `None` when a topic call raises, which ends the run.
   */
  function EnrichTable(t: Table, sentimentOf: Cell -> Labels.SentimentReply, topicsOf: Cell -> TopicReply): (r: Option<Table>)
    requires WellFormed(t) && HasColumn(t, "content")
    ensures r.None? <==> TopicsRaise(Named(t, "content"), topicsOf)
  {
    var content := Named(t, "content");
    var scored := SetColumn(t, "sentiment", Sentiments(content, sentimentOf));
    if TopicsRaise(content, topicsOf) then None
    else Some(SetColumn(scored, "topics", TopicCells(content, topicsOf)))
  }

  function Sentiments(content: seq<Cell>, sentimentOf: Cell -> Labels.SentimentReply): seq<Cell> {
    seq(|content|, i requires 0 <= i < |content| => Text(Labels.AnalyzeSentiment(sentimentOf(content[i]))))
  }

  function TopicCells(content: seq<Cell>, topicsOf: Cell -> TopicReply): seq<Cell>
    requires !TopicsRaise(content, topicsOf)
  {
    seq(|content|, i requires 0 <= i < |content| => Text(Topics.FilterTopics(topicsOf(content[i]).text)))
  }

  /** The enriched table's header: "sentiment" and then "topics", each appended unless already there. */
  lemma EnrichTableHeader(t: Table, sentimentOf: Cell -> Labels.SentimentReply, topicsOf: Cell -> TopicReply)
    requires WellFormed(t) && HasColumn(t, "content")
    requires EnrichTable(t, sentimentOf, topicsOf).Some?
    ensures var r := EnrichTable(t, sentimentOf, topicsOf).value;
      && WellFormed(r) && |r.rows| == |t.rows|
      && r.columns == WithColumn(WithColumn(t.columns, "sentiment"), "topics")
  {
    var content := Named(t, "content");
    SetTwoColumns(t, "sentiment", Sentiments(content, sentimentOf), "topics", TopicCells(content, topicsOf));
  }

  /** A table that comes back from the two calls carries their answers and nothing else new. */
  lemma EnrichTableAdds(t: Table, sentimentOf: Cell -> Labels.SentimentReply, topicsOf: Cell -> TopicReply)
    requires WellFormed(t) && HasColumn(t, "content")
    requires EnrichTable(t, sentimentOf, topicsOf).Some?
    ensures Enriches(t, EnrichTable(t, sentimentOf, topicsOf).value, sentimentOf, topicsOf)
  {
    var content := Named(t, "content");
    var sentiments := Sentiments(content, sentimentOf);
    var scored := SetColumn(t, "sentiment", sentiments);
    var topics := TopicCells(content, topicsOf);
    var r := SetColumn(scored, "topics", topics);
    assert EnrichTable(t, sentimentOf, topicsOf).value == r;
    SetTwoColumns(t, "sentiment", sentiments, "topics", topics);
  }

  /** Every sentiment cell is a label other than "Neutral"; every topic cell lists only categories. */
  ghost predicate Labelled(r: Table) {
    && WellFormed(r) && HasColumn(r, "sentiment") && HasColumn(r, "topics")
    && (forall i :: 0 <= i < |r.rows| ==>
          Named(r, "sentiment")[i].Text? && Named(r, "sentiment")[i].s != "Neutral")
    && (forall i :: 0 <= i < |r.rows| ==>
          && Named(r, "topics")[i].Text?
          && (forall x :: x in Split(Named(r, "topics")[i].s, Topics.Separator) ==> x in Topics.Categories))
  }

  lemma EnrichedIsLabelled(t: Table, sentimentOf: Cell -> Labels.SentimentReply, topicsOf: Cell -> TopicReply)
    requires WellFormed(t) && HasColumn(t, "content")
    requires EnrichTable(t, sentimentOf, topicsOf).Some?
    ensures Labelled(EnrichTable(t, sentimentOf, topicsOf).value)
  {
    var r := EnrichTable(t, sentimentOf, topicsOf).value;
    var content := Named(t, "content");
    EnrichTableAdds(t, sentimentOf, topicsOf);
    forall i | 0 <= i < |r.rows|
      ensures Named(r, "topics")[i].Text?
      ensures forall x :: x in Split(Named(r, "topics")[i].s, Topics.Separator) ==> x in Topics.Categories
    {
      assert topicsOf(content[i]).TopicText?;
      Topics.TopicsAreCategories(topicsOf(content[i]).text);
    }
  }

  // ---------------------------------------------------------------------
  // The loop over the raw files

  /** What one raw file contributes: the read raises, it is skipped, or it yields a table. */
  datatype FileResult = Failed | Skipped | Enriched(table: Table)

  /**
   * Lines 120-137 for one file. A file that cannot be read as a table
   * raises in `read_csv`, and so does a topic call; a file without "content"
   * or without rows is skipped; otherwise the file's table comes back with
   * the two new columns.
   */
  function EnrichFile(files: map<string, Table>, path: string,
                      sentimentOf: Cell -> Labels.SentimentReply, topicsOf: Cell -> TopicReply): (r: FileResult)
    ensures r == Failed <==>
      path !in files || !WellFormed(files[path]) ||
      (HasColumn(files[path], "content") && files[path].rows != [] && TopicsRaise(Named(files[path], "content"), topicsOf))
    ensures r == Skipped <==>
      path in files && WellFormed(files[path]) && (!HasColumn(files[path], "content") || files[path].rows == [])
    ensures r.Enriched? ==>
      path in files && WellFormed(files[path]) && HasColumn(files[path], "content") &&
      Enriches(files[path], r.table, sentimentOf, topicsOf)
  {
    if path !in files || !WellFormed(files[path]) then Failed
    else if !HasColumn(files[path], "content") || files[path].rows == [] then Skipped
    else match EnrichTable(files[path], sentimentOf, topicsOf)
      case None => Failed
      case Some(r) =>
        EnrichTableAdds(files[path], sentimentOf, topicsOf);
        Enriched(r)
  }

  /** A file the scraper wrote is never skipped, and fails only when a topic call raises. */
  lemma ScraperFileEnriched(files: map<string, Table>, path: string, reviews: seq<Scraper.Review>,
                            showScore: int -> string, showAt: int -> string,
                            sentimentOf: Cell -> Labels.SentimentReply, topicsOf: Cell -> TopicReply)
    requires reviews != []
    requires path in files && files[path] == RawTable(reviews, showScore, showAt)
    ensures EnrichFile(files, path, sentimentOf, topicsOf) != Skipped
    ensures EnrichFile(files, path, sentimentOf, topicsOf) == Failed <==>
      exists i :: 0 <= i < |reviews| && topicsOf(CsvCell(reviews[i].content)).TopicRaised?
  {
    var t := files[path];
    var content := Named(t, "content");
    if TopicsRaise(content, topicsOf) {
      var i :| 0 <= i < |content| && topicsOf(content[i]).TopicRaised?;
      assert topicsOf(CsvCell(reviews[i].content)).TopicRaised?;
    } else {
      forall i | 0 <= i < |reviews| ensures !topicsOf(CsvCell(reviews[i].content)).TopicRaised? {
        assert content[i] == CsvCell(reviews[i].content);
      }
    }
  }

  function Results(files: map<string, Table>, daily: string, raws: seq<string>,
                   sentimentOf: Cell -> Labels.SentimentReply, topicsOf: Cell -> TopicReply): seq<FileResult>
  {
    seq(|raws|, i requires 0 <= i < |raws| => EnrichFile(files, PathJoin(daily, raws[i]), sentimentOf, topicsOf))
  }

  /** Where the loop stands: the last table written, and whether a raise ended it. */
  datatype ScanResult = ScanResult(written: Option<Table>, aborted: bool)

  /** The loop of lines 119-140, file by file, each table overwriting the one before. */
  function Scan(results: seq<FileResult>, written: Option<Table>): ScanResult {
    if results == [] then ScanResult(written, false)
    else match results[0]
      case Failed => ScanResult(written, true)
      case Skipped => Scan(results[1..], written)
      case Enriched(t) => Scan(results[1..], Some(t))
  }

  /** The loop stops early exactly when some file raises. */
  lemma {:induction false} ScanAborts(results: seq<FileResult>, written: Option<Table>)
    ensures Scan(results, written).aborted <==> Failed in results
  {
    if results != [] && results[0] != Failed {
      ScanAborts(results[1..], if results[0].Enriched? then Some(results[0].table) else written);
      assert results == [results[0]] + results[1..];
    }
  }

  /** The files the run gets through: the results before the first failure. */
  function Ran(results: seq<FileResult>): (ran: seq<FileResult>)
    ensures ran <= results && Failed !in ran
    ensures |ran| < |results| ==> results[|ran|] == Failed
  {
    if results == [] || results[0] == Failed then []
    else [results[0]] + Ran(results[1..])
  }

  /** The last table among `results`, searching from the end; `before` when there is none. */
  function LastOf(results: seq<FileResult>, before: Option<Table>): Option<Table> {
    if results == [] then before
    else match results[|results| - 1]
      case Enriched(t) => Some(t)
      case _ => LastOf(results[..|results| - 1], before)
  }

  lemma {:induction false} LastOfCons(x: FileResult, results: seq<FileResult>, before: Option<Table>)
    ensures LastOf([x] + results, before) == LastOf(results, if x.Enriched? then Some(x.table) else before)
  {
    var all := [x] + results;
    if results == [] {
      assert all[..0] == [];
    } else {
      var n := |results|;
      assert all[n] == results[n - 1];
      assert all[..n] == [x] + results[..n - 1];
      LastOfCons(x, results[..n - 1], before);
    }
  }

  /** After the loop, the processed file holds the table of the last file that yielded one before any raise. */
  lemma {:induction false} ScanKeepsLast(results: seq<FileResult>, written: Option<Table>)
    ensures Scan(results, written).written == LastOf(Ran(results), written)
  {
    if results != [] && results[0] != Failed {
      var next := if results[0].Enriched? then Some(results[0].table) else written;
      ScanKeepsLast(results[1..], next);
      LastOfCons(results[0], Ran(results[1..]), written);
    }
  }

  /** `k` is the position of the last table in `results`. */
  predicate IsLastTable(results: seq<FileResult>, k: int) {
    0 <= k < |results| && results[k].Enriched? && forall j :: k < j < |results| ==> !results[j].Enriched?
  }

  /** `LastOf` finds the last table, and finds none only when there is none. */
  lemma {:induction false} LastOfIsLast(results: seq<FileResult>)
    ensures LastOf(results, None).None? <==> forall k :: 0 <= k < |results| ==> !results[k].Enriched?
    ensures LastOf(results, None).Some? ==>
      exists k :: IsLastTable(results, k) && results[k].table == LastOf(results, None).value
  {
    if results != [] {
      var n := |results|;
      if results[n - 1].Enriched? {
        assert IsLastTable(results, n - 1);
      } else {
        var front := results[..n - 1];
        LastOfIsLast(front);
        assert LastOf(results, None) == LastOf(front, None);
        if LastOf(front, None).Some? {
          var k :| IsLastTable(front, k) && front[k].table == LastOf(front, None).value;
          assert IsLastTable(results, k);
        } else {
          forall k | 0 <= k < n ensures !results[k].Enriched? {
            if k < n - 1 {
              assert results[k] == front[k];
            }
          }
        }
      }
    }
  }

  // ---------------------------------------------------------------------
  // A run

  datatype Outcome = NoFolder | NoRawFiles | Finished | Aborted

  /** How a run ends and what it last wrote to the processed file. */
  datatype Report = Report(outcome: Outcome, written: Option<Table>)

  /**
   * `process_reviews` as a function of the disk before it. The run reports
   * a missing folder, no raw file, a raise while reading or classifying, or
   * the end of the list; nothing is written in the first two cases.
   */
  function Process(dirs: set<string>, files: map<string, Table>, app: string, day: Clock.Civil, listing: seq<string>,
                   sentimentOf: Cell -> Labels.SentimentReply, topicsOf: Cell -> TopicReply): (p: Report)
    requires Clock.Valid(day)
    ensures var daily := Scraper.DailyFolder(app, day);
      var raws := RawFiles(app, listing);
      && (p.outcome == NoFolder <==> daily !in dirs)
      && (p.outcome == NoRawFiles <==> daily in dirs && raws == [])
      && (p.outcome == Aborted <==> daily in dirs && raws != [] && Failed in Results(files, daily, raws, sentimentOf, topicsOf))
      && (p.outcome == NoFolder || p.outcome == NoRawFiles ==> p.written == None)
  {
    var daily := Scraper.DailyFolder(app, day);
    var raws := RawFiles(app, listing);
    if daily !in dirs then Report(NoFolder, None)
    else if raws == [] then Report(NoRawFiles, None)
    else
      var results := Results(files, daily, raws, sentimentOf, topicsOf);
      ScanAborts(results, None);
      var s := Scan(results, None);
      Report(if s.aborted then Aborted else Finished, s.written)
  }

  /**
   * The files after a run that wrote `written` last. A file holds what
   * `read_csv` gives back, so the table is stored as it reads back.
   */
  function Store(files: map<string, Table>, path: string, written: Option<Table>): map<string, Table> {
    match written
    case None => files
    case Some(t) => files[path := Reread(t)]
  }

  /** Overwriting the processed file forgets what an earlier file wrote there. */
  lemma StoreOverwrites(files: map<string, Table>, path: string, written: Option<Table>, t: Table)
    ensures Store(Store(files, path, written), path, Some(t)) == Store(files, path, Some(t))
  {
    if written.Some? {
      assert files[path := Reread(written.value)][path := Reread(t)] == files[path := Reread(t)];
    }
  }

  /**
   * What the processed file ends up holding: the table of the last raw
   * file, in listing order, that yielded one before the first raise.
   */
  lemma ProcessWritesLastTable(dirs: set<string>, files: map<string, Table>, app: string, day: Clock.Civil, listing: seq<string>,
                               sentimentOf: Cell -> Labels.SentimentReply, topicsOf: Cell -> TopicReply)
    requires Clock.Valid(day)
    requires Scraper.DailyFolder(app, day) in dirs
    ensures Process(dirs, files, app, day, listing, sentimentOf, topicsOf).written ==
      LastOf(Ran(Results(files, Scraper.DailyFolder(app, day), RawFiles(app, listing), sentimentOf, topicsOf)), None)
  {
    var raws := RawFiles(app, listing);
    ScanKeepsLast(Results(files, Scraper.DailyFolder(app, day), raws, sentimentOf, topicsOf), None);
  }

  /** Whatever a run writes carries a non-neutral label and known categories on every row. */
  lemma ProcessOutputLabelled(dirs: set<string>, files: map<string, Table>, app: string, day: Clock.Civil, listing: seq<string>,
                              sentimentOf: Cell -> Labels.SentimentReply, topicsOf: Cell -> TopicReply)
    requires Clock.Valid(day)
    requires Process(dirs, files, app, day, listing, sentimentOf, topicsOf).written.Some?
    ensures Labelled(Process(dirs, files, app, day, listing, sentimentOf, topicsOf).written.value)
  {
    var daily := Scraper.DailyFolder(app, day);
    var raws := RawFiles(app, listing);
    var results := Results(files, daily, raws, sentimentOf, topicsOf);
    var w := Process(dirs, files, app, day, listing, sentimentOf, topicsOf).written.value;
    ProcessWritesLastTable(dirs, files, app, day, listing, sentimentOf, topicsOf);
    LastOfIsLast(Ran(results));
    var k :| IsLastTable(Ran(results), k) && Ran(results)[k].table == w;
    assert results[k] == EnrichFile(files, PathJoin(daily, raws[k]), sentimentOf, topicsOf) == Enriched(w);
    EnrichedFileLabelled(files, PathJoin(daily, raws[k]), sentimentOf, topicsOf);
  }

  lemma EnrichedFileLabelled(files: map<string, Table>, path: string,
                             sentimentOf: Cell -> Labels.SentimentReply, topicsOf: Cell -> TopicReply)
    requires EnrichFile(files, path, sentimentOf, topicsOf).Enriched?
    ensures Labelled(EnrichFile(files, path, sentimentOf, topicsOf).table)
  {
    EnrichedIsLabelled(files[path], sentimentOf, topicsOf);
  }

  /** A run that finds raw files ends as the loop over them does. */
  lemma ProcessScans(dirs: set<string>, files: map<string, Table>, app: string, day: Clock.Civil, listing: seq<string>,
                     sentimentOf: Cell -> Labels.SentimentReply, topicsOf: Cell -> TopicReply)
    requires Clock.Valid(day)
    requires Scraper.DailyFolder(app, day) in dirs && RawFiles(app, listing) != []
    ensures var s := Scan(Results(files, Scraper.DailyFolder(app, day), RawFiles(app, listing), sentimentOf, topicsOf), None);
      Process(dirs, files, app, day, listing, sentimentOf, topicsOf) == Report(if s.aborted then Aborted else Finished, s.written)
  {
  }

  /** Writing the processed file does not change what reading another file gives. */
  lemma EnrichFileIgnoresOutput(files: map<string, Table>, output: string, written: Option<Table>, path: string,
                                sentimentOf: Cell -> Labels.SentimentReply, topicsOf: Cell -> TopicReply)
    requires path != output
    ensures EnrichFile(Store(files, output, written), path, sentimentOf, topicsOf) == EnrichFile(files, path, sentimentOf, topicsOf)
  {
    var stored := Store(files, output, written);
    assert path in stored <==> path in files;
    assert path in files ==> stored[path] == files[path];
  }

  /** One turn of the loop. */
  lemma ScanStep(results: seq<FileResult>, i: nat, written: Option<Table>)
    requires i < |results|
    ensures Scan(results[i..], written) == match results[i]
      case Failed => ScanResult(written, true)
      case Skipped => Scan(results[i + 1..], written)
      case Enriched(t) => Scan(results[i + 1..], Some(t))
  {
    assert results[i..][1..] == results[i + 1..];
  }

  /** The folders and files `process_reviews` sees. */
  class Disk {
    var dirs: set<string>
    var files: map<string, Table>

    constructor (dirs: set<string>, files: map<string, Table>)
      ensures this.dirs == dirs && this.files == files
    {
      this.dirs := dirs;
      this.files := files;
    }

    /** `to_csv` of a table: what a later read of `path` gives back. */
    method Write(path: string, t: Table)
      modifies this
      ensures dirs == old(dirs)
      ensures files == Store(old(files), path, Some(t))
    {
      files := files[path := Reread(t)];
    }
  }

  /**
   * The body of the loop of lines 119-137 for one file. The processed file
   * written by an earlier turn is never the file read, so the turn sees the
   * files as they were before the loop; an enriched table overwrites the
   * processed file.
   */
  method EnrichOne(disk: Disk, output: string, path: string, ghost before: map<string, Table>, ghost written: Option<Table>,
                   sentimentOf: Cell -> Labels.SentimentReply, topicsOf: Cell -> TopicReply)
      returns (result: FileResult)
    requires path != output && disk.files == Store(before, output, written)
    modifies disk
    ensures result == EnrichFile(before, path, sentimentOf, topicsOf)
    ensures disk.dirs == old(disk.dirs)
    ensures disk.files == Store(before, output, if result.Enriched? then Some(result.table) else written)
  {
    EnrichFileIgnoresOutput(before, output, written, path, sentimentOf, topicsOf);
    if path !in disk.files || !WellFormed(disk.files[path]) {
      return Failed;
    }
    var df := disk.files[path];
    if !HasColumn(df, "content") || df.rows == [] {
      return Skipped;
    }
    var enriched := EnrichTable(df, sentimentOf, topicsOf);
    if enriched.None? {
      return Failed;
    }
    StoreOverwrites(before, output, written, enriched.value);
    disk.Write(output, enriched.value);
    return Enriched(enriched.value);
  }

  /**
   * The loop of lines 119-137 over the raw files of the date folder, none of
   * which is the processed file.
   */
  method EnrichAll(disk: Disk, output: string, daily: string, raws: seq<string>,
                   sentimentOf: Cell -> Labels.SentimentReply, topicsOf: Cell -> TopicReply)
      returns (aborted: bool)
    requires forall i :: 0 <= i < |raws| ==> PathJoin(daily, raws[i]) != output
    modifies disk
    ensures disk.dirs == old(disk.dirs)
    ensures aborted == Scan(Results(old(disk.files), daily, raws, sentimentOf, topicsOf), None).aborted
    ensures disk.files == Store(old(disk.files), output, Scan(Results(old(disk.files), daily, raws, sentimentOf, topicsOf), None).written)
  {
    ghost var results := Results(disk.files, daily, raws, sentimentOf, topicsOf);
    ghost var final := Scan(results, None);
    ghost var written: Option<Table> := None;
    for i := 0 to |raws|
      invariant disk.dirs == old(disk.dirs)
      invariant disk.files == Store(old(disk.files), output, written)
      invariant final == Scan(results[i..], written)
    {
      ScanStep(results, i, written);
      var result := EnrichOne(disk, output, PathJoin(daily, raws[i]), old(disk.files), written, sentimentOf, topicsOf);
      match result
      case Failed =>
        return true;
      case Skipped =>
      case Enriched(t) =>
        written := Some(t);
    }
    assert results[|raws|..] == [];
    return false;
  }

  /**
   * `process_reviews` (lines 105-140). `day` is the UTC date read at line
   * 106; `listing` is `os.listdir` of the date folder.
   */
  method ProcessReviews(disk: Disk, app: string, day: Clock.Civil, listing: seq<string>,
                        sentimentOf: Cell -> Labels.SentimentReply, topicsOf: Cell -> TopicReply)
      returns (outcome: Outcome)
    requires Clock.Valid(day)
    modifies disk
    ensures disk.dirs == old(disk.dirs)
    ensures outcome == Process(old(disk.dirs), old(disk.files), app, day, listing, sentimentOf, topicsOf).outcome
    ensures disk.files == Store(old(disk.files), OutputPath(app, day),
      Process(old(disk.dirs), old(disk.files), app, day, listing, sentimentOf, topicsOf).written)
  {
    var daily := Scraper.DailyFolder(app, day);
    if daily !in disk.dirs {
      return NoFolder;
    }
    var output := OutputPath(app, day);
    var raws := RawFiles(app, listing);
    if raws == [] {
      return NoRawFiles;
    }
    ProcessScans(disk.dirs, disk.files, app, day, listing, sentimentOf, topicsOf);
    forall i | 0 <= i < |raws| ensures PathJoin(daily, raws[i]) != output {
      RawPathIsNotOutput(app, day, raws[i]);
    }
    var aborted := EnrichAll(disk, output, daily, raws, sentimentOf, topicsOf);
    return if aborted then Aborted else Finished;
  }
}
