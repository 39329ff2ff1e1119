/**
 * The incremental fetch of SAPP_Scraper.py: choose a cutoff, page through the
 * review store newest first, keep the reviews strictly newer than the cutoff,
 * and save the raw file and the new watermark only when something was kept.
 *
 * The review store is a finite sequence of pages; page `i` comes back with a
 * continuation token exactly when a page `i + 1` exists, and asking past the
 * last page yields an empty page. Instants are integers (microseconds, UTC).
 */
module Scraper {
  import opened Wrappers
  import opened PyStr
  import Clock

  /** One review, reduced to the four columns the raw file keeps. */
  datatype Review = Review(userName: string, score: int, at: int, content: string)

  const MicrosPerHour: int := 3_600_000_000

  /** What reading `last_scraped.txt` and parsing its stripped text gives. */
  datatype Checkpoint = NoFile | Blank | Unparsable | Stamp(at: int)

  /** The second entry of `date_range`: absent, parsed, or rejected by `fromisoformat`. */
  datatype EndBound = NoEnd | EndAt(at: int) | BadEnd

  /**
   * `date_range` from the configuration: `NoRange` when it is missing or an
   * empty list; otherwise the parse of its start (None when `fromisoformat`
   * rejects it) and of its end.
   */
  datatype DateRange = NoRange | Range(start: Option<int>, end: EndBound)

  /** The stored watermark, or None for a missing, blank or unparsable file. */
  function Stored(c: Checkpoint): Option<int> {
    if c.Stamp? then Some(c.at) else None
  }

  /**
   * The cutoff: a parsable date range wins; a range whose start or end does
   * not parse leaves no cutoff at all; without a range the stored watermark
   * is used, falling back to `now` minus `hours` hours. The end date takes no
   * part in the result beyond having to parse.
   */
  function ChooseCutoff(range: DateRange, stored: Checkpoint, now: int, hours: int): (cutoff: Option<int>)
    ensures range.Range? && range.start.Some? && !range.end.BadEnd? ==> cutoff == range.start
    ensures range.Range? && (range.start.None? || range.end.BadEnd?) ==> cutoff == None
    ensures range.NoRange? && stored.Stamp? ==> cutoff == Some(stored.at)
    ensures range.NoRange? && !stored.Stamp? ==> cutoff == Some(now - hours * MicrosPerHour)
  {
    match range
    case Range(start, end) => if start.None? || end.BadEnd? then None else start
    case NoRange => if Stored(stored).Some? then Stored(stored) else Some(now - hours * MicrosPerHour)
  }

  /**
   * The third stop test of the page loop, `date_range and review_date < start_date`:
   * absent without a range, a comparison when `start_date` was bound, and a
   * NameError when the start failed to parse (`start_date` never assigned).
   */
  datatype RangeTest = NoRangeTest | BeforeStart(start: int) | StartUnbound

  function RangeTestOf(range: DateRange): RangeTest {
    match range
    case NoRange => NoRangeTest
    case Range(start, _) => if start.Some? then BeforeStart(start.value) else StartUnbound
  }

  /** Cutoff and range test come from the same configuration and agree. */
  lemma CutoffMatchesRangeTest(range: DateRange, stored: Checkpoint, now: int, hours: int)
    ensures RangeTestOf(range) == StartUnbound ==> ChooseCutoff(range, stored, now, hours) == None
    ensures RangeTestOf(range).BeforeStart? && ChooseCutoff(range, stored, now, hours).Some? ==>
              ChooseCutoff(range, stored, now, hours) == Some(RangeTestOf(range).start)
    ensures RangeTestOf(range) == NoRangeTest ==> ChooseCutoff(range, stored, now, hours).Some?
  {
  }

  /** A review the loop accepts: there is no cutoff, or it is strictly newer. */
  predicate Fresh(r: Review, cutoff: Option<int>) {
    cutoff.None? || r.at > cutoff.value
  }

  /**
   * The reviews the inner loop accepts from one page: the longest prefix of
   * the page whose reviews are all fresh.
   */
  function Newer(page: seq<Review>, cutoff: Option<int>): (taken: seq<Review>)
    ensures |taken| <= |page|
  {
    if page == [] || !Fresh(page[0], cutoff) then []
    else [page[0]] + Newer(page[1..], cutoff)
  }

  /** `review_date` after the inner loop: the review it stopped at, or the page's last one. */
  function LastInspected(page: seq<Review>, cutoff: Option<int>): int
    requires page != []
  {
    var k := |Newer(page, cutoff)|;
    if k < |page| then page[k].at else page[|page| - 1].at
  }

  /** The larger of a running maximum and a new instant (`latest_timestamp` update). */
  function Bump(latest: Option<int>, at: int): Option<int> {
    if latest.None? || at > latest.value then Some(at) else latest
  }

  /** `latest_timestamp` after folding the accepted reviews of one page, starting from `init`. */
  function PageLatest(init: Option<int>, taken: seq<Review>): Option<int> {
    if taken == [] then init
    else Bump(PageLatest(init, taken[..|taken| - 1]), taken[|taken| - 1].at)
  }

  /** What the outer loop does after a non-empty page. */
  datatype Step = Next | Halt | NameError

  function AfterPage(reviewDate: int, hasToken: bool, cutoff: Option<int>, test: RangeTest): Step {
    if !hasToken then Halt
    else if cutoff.Some? && reviewDate <= cutoff.value then Halt
    else match test
      case NoRangeTest => Next
      case BeforeStart(start) => if reviewDate < start then Halt else Next
      case StartUnbound => NameError
  }

  /** How the page loop ends: after processing `pages` non-empty pages, or by an exception. */
  datatype LoopEnd = Ended(pages: nat) | Crashed

  /** The loop from page `i` on. */
  function Paging(pages: seq<seq<Review>>, cutoff: Option<int>, test: RangeTest, i: nat): (e: LoopEnd)
    requires i <= |pages|
    ensures e.Ended? ==> i <= e.pages <= |pages|
    decreases |pages| - i
  {
    if i == |pages| || pages[i] == [] then Ended(i)
    else match AfterPage(LastInspected(pages[i], cutoff), i + 1 < |pages|, cutoff, test)
      case Halt => Ended(i + 1)
      case Next => Paging(pages, cutoff, test, i + 1)
      case NameError => Crashed
  }

  /** `new_reviews` after the first `n` pages. */
  function AcceptedBefore(pages: seq<seq<Review>>, cutoff: Option<int>, n: nat): seq<Review>
    requires n <= |pages|
  {
    if n == 0 then [] else AcceptedBefore(pages, cutoff, n - 1) + Newer(pages[n - 1], cutoff)
  }

  /** The outcome of the fetch: the accepted reviews and the candidate watermark, or a crash. */
  datatype Fetched = Crash | Fetched(reviews: seq<Review>, latest: Option<int>)

  /**
   * The fetch loop of lines 59-100. With a cutoff, every fetched review is
   * strictly newer than it; the only crash is the one of a range whose start
   * never parsed. `latest_timestamp` is re-seeded with the cutoff on every
   * page, so only the last page counts towards the watermark.
   */
  function Fetch(pages: seq<seq<Review>>, cutoff: Option<int>, test: RangeTest): (f: Fetched)
    ensures f.Fetched? && cutoff.Some? ==> forall r :: r in f.reviews ==> r.at > cutoff.value
    ensures f.Crash? ==> test == StartUnbound
  {
    match Paging(pages, cutoff, test, 0)
    case Crashed =>
      CrashOnlyWithoutStart(pages, cutoff, test, 0);
      Crash
    case Ended(n) =>
      AcceptedAreFresh(pages, cutoff, n);
      Fetched(AcceptedBefore(pages, cutoff, n),
              if n == 0 then None else PageLatest(cutoff, Newer(pages[n - 1], cutoff)))
  }

  /**
   * One pass of the inner loop (lines 78-91): append the page's fresh prefix
   * to `acc`, fold its instants into a maximum seeded with the cutoff, and
   * report the date of the last review looked at.
   */
  method ScanPage(acc: seq<Review>, page: seq<Review>, cutoff: Option<int>)
    returns (accepted: seq<Review>, latest: Option<int>, reviewDate: int)
    requires page != []
    ensures accepted == acc + Newer(page, cutoff)
    ensures latest == PageLatest(cutoff, Newer(page, cutoff))
    ensures reviewDate == LastInspected(page, cutoff)
  {
    accepted, latest := acc, cutoff;
    var j := 0;
    reviewDate := page[0].at;
    while j < |page|
      invariant 0 <= j <= |page|
      invariant forall k :: 0 <= k < j ==> Fresh(page[k], cutoff)
      invariant accepted == acc + page[..j]
      invariant latest == PageLatest(cutoff, page[..j])
      invariant j > 0 ==> reviewDate == page[j - 1].at
    {
      reviewDate := page[j].at;
      if cutoff.Some? && reviewDate <= cutoff.value {
        break;
      }
      accepted := accepted + [page[j]];
      assert page[..j + 1][..j] == page[..j];
      if latest.None? || reviewDate > latest.value {
        latest := Some(reviewDate);
      }
      j := j + 1;
    }
    NewerIsPrefix(page, cutoff, j);
  }

  /** One round of the page loop on a non-empty page: scan it, then apply the stop test of line 97. */
  method NextPage(pages: seq<seq<Review>>, cutoff: Option<int>, test: RangeTest, i: nat, acc: seq<Review>)
    returns (accepted: seq<Review>, latest: Option<int>, step: Step)
    requires i < |pages| && pages[i] != [] && acc == AcceptedBefore(pages, cutoff, i)
    ensures accepted == AcceptedBefore(pages, cutoff, i + 1)
    ensures latest == PageLatest(cutoff, Newer(pages[i], cutoff))
    ensures step == Next ==> Paging(pages, cutoff, test, i) == Paging(pages, cutoff, test, i + 1)
    ensures step == Halt ==> Paging(pages, cutoff, test, i) == Ended(i + 1)
    ensures step == NameError ==> Paging(pages, cutoff, test, i) == Crashed
  {
    var reviewDate;
    accepted, latest, reviewDate := ScanPage(acc, pages[i], cutoff);
    PagingUnfolds(pages, cutoff, test, i);
    step := AfterPage(reviewDate, i + 1 < |pages|, cutoff, test);
  }

  /** The page loop (lines 59-101), proved to compute `Fetch`. */
  method FetchNew(pages: seq<seq<Review>>, cutoff: Option<int>, test: RangeTest) returns (outcome: Fetched)
    ensures outcome == Fetch(pages, cutoff, test)
  {
    var newReviews: seq<Review> := [];
    var latest: Option<int> := None;
    var i := 0;
    var step := Next;
    while step == Next && i < |pages| && pages[i] != []
      invariant 0 <= i <= |pages|
      invariant step == Next ==> Paging(pages, cutoff, test, 0) == Paging(pages, cutoff, test, i)
      invariant step == Halt ==> Paging(pages, cutoff, test, 0) == Ended(i)
      invariant step == NameError ==> Paging(pages, cutoff, test, 0) == Crashed
      invariant newReviews == AcceptedBefore(pages, cutoff, i)
      invariant i == 0 ==> latest == None
      invariant i > 0 ==> latest == PageLatest(cutoff, Newer(pages[i - 1], cutoff))
      decreases |pages| - i, step == Next
    {
      newReviews, latest, step := NextPage(pages, cutoff, test, i, newReviews);
      i := i + 1;
    }
    if step == NameError {
      FetchOnCrash(pages, cutoff, test);
      outcome := Crash;
    } else {
      FetchOnEnd(pages, cutoff, test, i);
      outcome := Fetched(newReviews, latest);
    }
  }

  lemma FetchOnEnd(pages: seq<seq<Review>>, cutoff: Option<int>, test: RangeTest, n: nat)
    requires Paging(pages, cutoff, test, 0) == Ended(n)
    ensures Fetch(pages, cutoff, test) ==
      Fetched(AcceptedBefore(pages, cutoff, n),
              if n == 0 then None else PageLatest(cutoff, Newer(pages[n - 1], cutoff)))
  {
  }

  lemma PagingUnfolds(pages: seq<seq<Review>>, cutoff: Option<int>, test: RangeTest, i: nat)
    requires i < |pages| && pages[i] != []
    ensures var step := AfterPage(LastInspected(pages[i], cutoff), i + 1 < |pages|, cutoff, test);
      && (step == Halt ==> Paging(pages, cutoff, test, i) == Ended(i + 1))
      && (step == Next ==> Paging(pages, cutoff, test, i) == Paging(pages, cutoff, test, i + 1))
      && (step == NameError ==> Paging(pages, cutoff, test, i) == Crashed)
  {
  }

  lemma FetchOnCrash(pages: seq<seq<Review>>, cutoff: Option<int>, test: RangeTest)
    requires Paging(pages, cutoff, test, 0) == Crashed
    ensures Fetch(pages, cutoff, test) == Crash
  {
  }

  /** A prefix of fresh reviews that ends the page or meets a stale one is what `Newer` keeps. */
  lemma NewerIsPrefix(page: seq<Review>, cutoff: Option<int>, j: nat)
    requires j <= |page|
    requires forall k :: 0 <= k < j ==> Fresh(page[k], cutoff)
    requires j < |page| ==> !Fresh(page[j], cutoff)
    ensures Newer(page, cutoff) == page[..j]
  {
    NewerSpec(page, cutoff);
  }

  lemma {:induction false} NewerSpec(page: seq<Review>, cutoff: Option<int>)
    ensures var taken := Newer(page, cutoff);
      && taken == page[..|taken|]
      && (forall r :: r in taken ==> Fresh(r, cutoff))
      && (|taken| < |page| ==> !Fresh(page[|taken|], cutoff))
  {
    if page != [] && Fresh(page[0], cutoff) {
      NewerSpec(page[1..], cutoff);
    }
  }

  // ---------------------------------------------------------------------
  // What the fetch promises

  /** Every review the loop keeps passed the cutoff test. */
  lemma {:induction false} AcceptedAreFresh(pages: seq<seq<Review>>, cutoff: Option<int>, n: nat)
    requires n <= |pages|
    ensures forall r :: r in AcceptedBefore(pages, cutoff, n) ==> Fresh(r, cutoff)
  {
    if n > 0 {
      AcceptedAreFresh(pages, cutoff, n - 1);
      NewerSpec(pages[n - 1], cutoff);
    }
  }

  /** A page after which the loop goes on was taken whole: the scan stopped nowhere on it. */
  lemma NextMeansWholePage(pages: seq<seq<Review>>, cutoff: Option<int>, test: RangeTest, i: nat)
    requires i < |pages| && pages[i] != []
    requires AfterPage(LastInspected(pages[i], cutoff), i + 1 < |pages|, cutoff, test) == Next
    ensures Newer(pages[i], cutoff) == pages[i]
  {
    NewerSpec(pages[i], cutoff);
  }

  /**
   * From page `i` on, every page the loop processed before its last one was
   * non-empty and taken whole; a page on which the scan stopped early is
   * therefore the last page processed.
   */
  lemma {:induction false} WholePagesBeforeLast(pages: seq<seq<Review>>, cutoff: Option<int>, test: RangeTest, i: nat)
    requires i <= |pages| && Paging(pages, cutoff, test, i).Ended?
    ensures forall j :: i <= j < Paging(pages, cutoff, test, i).pages ==> pages[j] != []
    ensures forall j :: i <= j < Paging(pages, cutoff, test, i).pages - 1 ==> Newer(pages[j], cutoff) == pages[j]
    decreases |pages| - i
  {
    if i < |pages| && pages[i] != [] {
      var step := AfterPage(LastInspected(pages[i], cutoff), i + 1 < |pages|, cutoff, test);
      if step == Next {
        WholePagesBeforeLast(pages, cutoff, test, i + 1);
        NextMeansWholePage(pages, cutoff, test, i);
      }
    }
  }

  /** All reviews of the first `n` pages, in order. */
  function Flatten(pages: seq<seq<Review>>, n: nat): seq<Review>
    requires n <= |pages|
  {
    if n == 0 then [] else Flatten(pages, n - 1) + pages[n - 1]
  }

  lemma {:induction false} FlattenGrows(pages: seq<seq<Review>>, m: nat, n: nat)
    requires m <= n <= |pages|
    ensures |Flatten(pages, m)| <= |Flatten(pages, n)|
    ensures Flatten(pages, m) == Flatten(pages, n)[..|Flatten(pages, m)|]
    decreases n - m
  {
    if m < n {
      FlattenGrows(pages, m, n - 1);
      var f := Flatten(pages, n - 1);
      var k := |Flatten(pages, m)|;
      assert Flatten(pages, n)[..k] == f[..k];
    }
  }

  /** When the first `n - 1` pages were taken whole, the kept reviews are those pages plus a prefix of page `n`. */
  lemma {:induction false} AcceptedIsFlattenPrefix(pages: seq<seq<Review>>, cutoff: Option<int>, n: nat)
    requires 0 < n <= |pages|
    requires forall j :: 0 <= j < n - 1 ==> Newer(pages[j], cutoff) == pages[j]
    ensures AcceptedBefore(pages, cutoff, n) == Flatten(pages, n - 1) + Newer(pages[n - 1], cutoff)
    decreases n
  {
    if n > 1 {
      AcceptedIsFlattenPrefix(pages, cutoff, n - 1);
    }
  }

  /**
   * The fetched reviews are an in-order prefix of everything the store
   * returned, read page after page.
   */
  lemma FetchedIsPrefixOfSource(pages: seq<seq<Review>>, cutoff: Option<int>, test: RangeTest)
    requires Fetch(pages, cutoff, test).Fetched?
    ensures var rs := Fetch(pages, cutoff, test).reviews;
      |rs| <= |Flatten(pages, |pages|)| && rs == Flatten(pages, |pages|)[..|rs|]
  {
    var Ended(n) := Paging(pages, cutoff, test, 0);
    var rs := AcceptedBefore(pages, cutoff, n);
    if n > 0 {
      WholePagesBeforeLast(pages, cutoff, test, 0);
      AcceptedIsFlattenPrefix(pages, cutoff, n);
      NewerSpec(pages[n - 1], cutoff);
      FlattenGrows(pages, n, |pages|);
      var head := Flatten(pages, n - 1);
      assert Flatten(pages, n) == head + pages[n - 1];
      PrefixOfPrefix(head, pages[n - 1], Newer(pages[n - 1], cutoff), Flatten(pages, |pages|));
    }
  }

  /** Keeping a prefix of the last page keeps a prefix of the whole stream. */
  lemma PrefixOfPrefix(head: seq<Review>, page: seq<Review>, taken: seq<Review>, all: seq<Review>)
    requires |taken| <= |page| && taken == page[..|taken|]
    requires |head + page| <= |all| && head + page == all[..|head + page|]
    ensures head + taken == all[..|head + taken|]
  {
    assert head + taken == (head + page)[..|head + taken|];
  }

  /** The running maximum never drops below its seed, covers every folded instant and is one of them. */
  lemma {:induction false} PageLatestBounds(init: Option<int>, taken: seq<Review>)
    ensures var w := PageLatest(init, taken);
      && (init.Some? ==> w.Some? && init.value <= w.value)
      && (taken != [] ==> w.Some?)
      && (forall r :: r in taken ==> w.Some? && r.at <= w.value)
      && (w == init || exists r :: r in taken && w == Some(r.at))
  {
    if taken != [] {
      var front := taken[..|taken| - 1];
      PageLatestBounds(init, front);
      assert forall r :: r in taken ==> r in front || r == taken[|taken| - 1];
      var prev := PageLatest(init, front);
      if prev != init {
        var r :| r in front && prev == Some(r.at);
        assert r in taken;
      }
    }
  }

  /** The accepted reviews of the last page processed: the only ones the watermark is taken over. */
  function LastPageShare(pages: seq<seq<Review>>, cutoff: Option<int>, test: RangeTest): seq<Review> {
    match Paging(pages, cutoff, test, 0)
    case Ended(n) => if n == 0 then [] else Newer(pages[n - 1], cutoff)
    case Crashed => []
  }

  /**
   * When something was fetched, a watermark exists (so `isoformat()` at
   * line 111 never meets None); it is at least the cutoff and at least every
   * review kept from the last page, which is the tail of the fetched list;
   * and it is the cutoff or the instant of one of those reviews.
   */
  lemma WatermarkBounds(pages: seq<seq<Review>>, cutoff: Option<int>, test: RangeTest)
    requires Fetch(pages, cutoff, test).Fetched? && Fetch(pages, cutoff, test).reviews != []
    ensures var f := Fetch(pages, cutoff, test);
      var share := LastPageShare(pages, cutoff, test);
      && f.latest.Some?
      && |share| <= |f.reviews| && f.reviews[|f.reviews| - |share|..] == share
      && (cutoff.Some? ==> cutoff.value <= f.latest.value)
      && (forall r :: r in share ==> r.at <= f.latest.value)
      && (f.latest == cutoff || exists r :: r in share && f.latest == Some(r.at))
  {
    var Ended(n) := Paging(pages, cutoff, test, 0);
    FetchOnEnd(pages, cutoff, test, n);
    assert n > 0;
    var share := Newer(pages[n - 1], cutoff);
    assert LastPageShare(pages, cutoff, test) == share;
    if cutoff.None? {
      WholePagesBeforeLast(pages, cutoff, test, 0);
      assert pages[n - 1] != [] && Fresh(pages[n - 1][0], cutoff);
    }
    PageLatestBounds(cutoff, share);
    ShareIsTail(pages, cutoff, n);
  }

  /** The last page's accepted reviews end the accepted list. */
  lemma ShareIsTail(pages: seq<seq<Review>>, cutoff: Option<int>, n: nat)
    requires 0 < n <= |pages|
    ensures var rs := AcceptedBefore(pages, cutoff, n);
      var share := Newer(pages[n - 1], cutoff);
      |share| <= |rs| && rs[|rs| - |share|..] == share
  {
    var rs := AcceptedBefore(pages, cutoff, n);
    var share := Newer(pages[n - 1], cutoff);
    assert rs == AcceptedBefore(pages, cutoff, n - 1) + share;
  }

  /**
   * The watermark is not the maximum over everything fetched: a two-page run
   * keeps a review at 200 but records 150, so the next run fetches the
   * review at 200 again.
   */
  lemma WatermarkLagsBehindEarlierPages()
    ensures var a := Review("a", 5, 200, "fast");
      var b := Review("b", 4, 150, "slow");
      Fetch([[a], [b]], Some(100), NoRangeTest) == Fetched([a, b], Some(150))
  {
    var a := Review("a", 5, 200, "fast");
    var b := Review("b", 4, 150, "slow");
    var pages := [[a], [b]];
    assert Newer([a], Some(100)) == [a];
    assert Newer([b], Some(100)) == [b];
    assert Paging(pages, Some(100), NoRangeTest, 1) == Ended(2);
    assert Paging(pages, Some(100), NoRangeTest, 0) == Ended(2);
    assert AcceptedBefore(pages, Some(100), 1) == [a];
    assert PageLatest(Some(100), [b]) == Some(150) by {
      assert [b][..0] == [];
    }
  }

  /** When no review is newer than the cutoff, nothing is fetched, whatever the range test. */
  lemma NothingNewerNothingFetched(pages: seq<seq<Review>>, cutoff: Option<int>, test: RangeTest)
    requires cutoff.Some?
    requires forall p, r :: p in pages && r in p ==> r.at <= cutoff.value
    ensures Fetch(pages, cutoff, test).Fetched? && Fetch(pages, cutoff, test).reviews == []
  {
    if pages != [] && pages[0] != [] {
      assert pages[0][0] in pages[0];
      assert Newer(pages[0], cutoff) == [];
      assert Paging(pages, cutoff, test, 0) == Ended(1);
      assert AcceptedBefore(pages, cutoff, 1) == AcceptedBefore(pages, cutoff, 0) + [];
    }
  }

  /** The only way the loop crashes is the NameError of an unparsable range start. */
  lemma {:induction false} CrashOnlyWithoutStart(pages: seq<seq<Review>>, cutoff: Option<int>, test: RangeTest, i: nat)
    requires i <= |pages| && Paging(pages, cutoff, test, i) == Crashed
    ensures test == StartUnbound
    decreases |pages| - i
  {
    if i < |pages| && pages[i] != [] &&
       AfterPage(LastInspected(pages[i], cutoff), i + 1 < |pages|, cutoff, test) == Next {
      CrashOnlyWithoutStart(pages, cutoff, test, i + 1);
    }
  }

  /**
   * Across two runs without a date range, the saved watermark never moves
   * backwards: the new one is at least the stored one.
   */
  lemma WatermarkNeverDecreases(pages: seq<seq<Review>>, w0: int, now: int, hours: int)
    requires var f := Fetch(pages, ChooseCutoff(NoRange, Stamp(w0), now, hours), NoRangeTest);
      f.Fetched? && f.reviews != []
    ensures Fetch(pages, Some(w0), NoRangeTest).latest.Some?
    ensures w0 <= Fetch(pages, Some(w0), NoRangeTest).latest.value
  {
    WatermarkBounds(pages, Some(w0), NoRangeTest);
  }

  /** Reviews dated T-1 to T-5, newest first, with the cutoff at T-3: exactly T-1 and T-2 come back. */
  lemma ExampleCutoffInMiddle(t: int)
    ensures var rs := seq(5, k => Review("u", 3, t - 1 - k, "text"));
      Fetch([rs], Some(t - 3), NoRangeTest) == Fetched(rs[..2], Some(t - 1))
  {
    var rs := seq(5, k => Review("u", 3, t - 1 - k, "text"));
    var cutoff := Some(t - 3);
    assert rs[1..][1..] == rs[2..] && rs[1..][0] == rs[1];
    assert Newer(rs[2..], cutoff) == [];
    assert Newer(rs[1..], cutoff) == [rs[1]];
    assert Newer(rs, cutoff) == rs[..2];
    assert LastInspected(rs, cutoff) == t - 3;
    assert Paging([rs], cutoff, NoRangeTest, 0) == Ended(1);
    assert AcceptedBefore([rs], cutoff, 1) == [] + rs[..2];
    assert rs[..2][..1] == [rs[0]] && [rs[0]][..0] == [];
    assert PageLatest(cutoff, [rs[0]]) == Some(t - 1);
    assert PageLatest(cutoff, rs[..2]) == Some(t - 1);
  }

  /**
   * An explicit range start is exclusive: reviews at start + 12h, exactly at
   * the start, and a day before, yield only the first.
   */
  lemma ExampleRangeStartIsExclusive(start: int, end: int)
    ensures var day := 24 * MicrosPerHour;
      var rs := [Review("a", 5, start + day / 2, "x"), Review("b", 4, start, "y"), Review("c", 1, start - day, "z")];
      var cutoff := ChooseCutoff(Range(Some(start), EndAt(end)), NoFile, 0, 24);
      Fetch([rs], cutoff, RangeTestOf(Range(Some(start), EndAt(end)))) == Fetched(rs[..1], Some(start + day / 2))
  {
    var day := 24 * MicrosPerHour;
    var rs := [Review("a", 5, start + day / 2, "x"), Review("b", 4, start, "y"), Review("c", 1, start - day, "z")];
    var cutoff := Some(start);
    assert ChooseCutoff(Range(Some(start), EndAt(end)), NoFile, 0, 24) == cutoff;
    assert rs[1..][0] == rs[1];
    assert Newer(rs[1..], cutoff) == [];
    assert Newer(rs, cutoff) == rs[..1];
    assert LastInspected(rs, cutoff) == start;
    assert Paging([rs], cutoff, BeforeStart(start), 0) == Ended(1);
    assert AcceptedBefore([rs], cutoff, 1) == [] + rs[..1];
    assert rs[..1][..0] == [];
    assert PageLatest(cutoff, rs[..1]) == Some(start + day / 2);
  }

  // ---------------------------------------------------------------------
  // Files

  /** The app's output folder (line 16). */
  function BaseFolder(app: string): string {
    app + "_CSVFiles"
  }

  /** The watermark file, outside every date folder (line 19). */
  function CheckpointPath(app: string): string {
    PathJoin(BaseFolder(app), "last_scraped.txt")
  }

  /** The date folder named after the run's UTC day (lines 46-47). */
  function DailyFolder(app: string, day: Clock.Civil): string
    requires Clock.Valid(day)
  {
    PathJoin(BaseFolder(app), Clock.FormatDate(day))
  }

  /** The raw file name, stamped to the second (lines 51-52). */
  function RawFileName(app: string, stamp: Clock.Civil): string
    requires Clock.Valid(stamp)
  {
    app + "_Reviews_" + Clock.FormatStamp(stamp) + ".csv"
  }

  /**
   * The raw file path. The folder and the stamp come from two separate
   * readings of the clock (lines 46 and 51).
   */
  function RawFilePath(app: string, day: Clock.Civil, stamp: Clock.Civil): string
    requires Clock.Valid(day) && Clock.Valid(stamp)
  {
    PathJoin(DailyFolder(app, day), RawFileName(app, stamp))
  }

  /**
   * The raw file lies at "<app>_CSVFiles/<MM-DD-YYYY>/<app>_Reviews_<MM-DD-YYYY_HH-MM-SS>.csv",
   * unless the app name itself starts with "/", which makes `os.path.join`
   * drop both folders.
   */
  lemma RawFilePathLayout(app: string, day: Clock.Civil, stamp: Clock.Civil)
    requires Clock.Valid(day) && Clock.Valid(stamp)
    ensures RawFilePath(app, day, stamp) ==
      if StartsWith(app, "/") then RawFileName(app, stamp)
      else app + "_CSVFiles/" + Clock.FormatDate(day) + "/" + app + "_Reviews_" + Clock.FormatStamp(stamp) + ".csv"
  {
    var rest := "_Reviews_" + Clock.FormatStamp(stamp) + ".csv";
    assert RawFileName(app, stamp) == app + rest;
    InDailyFolder(app, day, rest);
  }

  /** The date folder is "<app>_CSVFiles/<MM-DD-YYYY>" and ends in a digit. */
  lemma DailyFolderLayout(app: string, day: Clock.Civil)
    requires Clock.Valid(day)
    ensures DailyFolder(app, day) == app + "_CSVFiles/" + Clock.FormatDate(day)
    ensures Clock.IsDigit(DailyFolder(app, day)[|DailyFolder(app, day)| - 1])
  {
    var base := BaseFolder(app);
    var date := Clock.FormatDate(day);
    assert base[|base| - 1] == 's';
    assert !StartsWith(date, "/") by { assert Clock.IsDigit(date[0]); }
    assert base + "/" + date == app + "_CSVFiles/" + date;
  }

  /**
   * A file whose name is the app name followed by '_' lands inside the date
   * folder, unless the app name starts with "/".
   */
  lemma InDailyFolder(app: string, day: Clock.Civil, rest: string)
    requires Clock.Valid(day) && rest != [] && rest[0] == '_'
    ensures PathJoin(DailyFolder(app, day), app + rest) ==
      if StartsWith(app, "/") then app + rest
      else app + "_CSVFiles/" + Clock.FormatDate(day) + "/" + app + rest
  {
    var folder := DailyFolder(app, day);
    var name := app + rest;
    DailyFolderLayout(app, day);
    assert StartsWith(name, "/") <==> StartsWith(app, "/") by {
      if app != [] {
        assert name[..1] == app[..1];
      } else {
        assert name[..1] == "_";
      }
    }
    if !StartsWith(app, "/") {
      assert PathJoin(folder, name) == folder + "/" + name;
    }
  }

  /** Runs whose stamps differ, even by one second, write different raw files. */
  lemma RawFileNameInjective(app: string, s1: Clock.Civil, s2: Clock.Civil)
    requires Clock.Valid(s1) && Clock.Valid(s2)
    requires RawFileName(app, s1) == RawFileName(app, s2)
    ensures s1 == s2
  {
    var n := |app| + 9;
    assert Clock.FormatStamp(s1) == RawFileName(app, s1)[n..n + 19];
    assert Clock.FormatStamp(s2) == RawFileName(app, s2)[n..n + 19];
    Clock.StampInjective(s1, s2);
  }

  /** A raw file is never the watermark file: one ends in ".csv", the other in ".txt". */
  lemma RawFileIsNotCheckpoint(app: string, day: Clock.Civil, stamp: Clock.Civil)
    requires Clock.Valid(day) && Clock.Valid(stamp)
    ensures RawFilePath(app, day, stamp) != CheckpointPath(app)
  {
    var raw := RawFilePath(app, day, stamp);
    var name := RawFileName(app, stamp);
    assert EndsWith(raw, name);
    assert raw[|raw| - 1] == name[|name| - 1] == 'v';
    var cp := CheckpointPath(app);
    assert EndsWith(cp, "last_scraped.txt");
    assert cp[|cp| - 1] == 't';
  }

  // ---------------------------------------------------------------------
  // A run

  /** The files the scraper touches: folders, raw files and the watermark file's text. */
  class ScrapeDisk {
    var dirs: set<string>
    var rawFiles: map<string, seq<Review>>
    var checkpoint: Checkpoint

    constructor (dirs: set<string>, rawFiles: map<string, seq<Review>>, checkpoint: Checkpoint)
      ensures this.dirs == dirs && this.rawFiles == rawFiles && this.checkpoint == checkpoint
    {
      this.dirs := dirs;
      this.rawFiles := rawFiles;
      this.checkpoint := checkpoint;
    }
  }

  /** Whether the run writes its files: only when at least one review was kept. */
  predicate Saves(outcome: Fetched) {
    outcome.Fetched? && outcome.reviews != []
  }

  /**
   * One scraper run: create the folders, choose the cutoff, page through the
   * store, and write the raw file and the watermark only when something was
   * kept; otherwise (nothing kept, or the loop crashed) neither file changes.
   */
  method Run(disk: ScrapeDisk, app: string, range: DateRange, hours: int, now: int,
             day: Clock.Civil, stamp: Clock.Civil, pages: seq<seq<Review>>)
    returns (outcome: Fetched)
    requires Clock.Valid(day) && Clock.Valid(stamp)
    modifies disk
    ensures outcome == Fetch(pages, ChooseCutoff(range, old(disk.checkpoint), now, hours), RangeTestOf(range))
    ensures disk.dirs == old(disk.dirs) + {BaseFolder(app), DailyFolder(app, day)}
    ensures Saves(outcome) ==> outcome.latest.Some?
    ensures Saves(outcome) ==>
      && disk.rawFiles == old(disk.rawFiles)[RawFilePath(app, day, stamp) := outcome.reviews]
      && disk.checkpoint == Stamp(outcome.latest.value)
    ensures !Saves(outcome) ==> disk.rawFiles == old(disk.rawFiles) && disk.checkpoint == old(disk.checkpoint)
  {
    disk.dirs := disk.dirs + {BaseFolder(app)};
    var cutoff := ChooseCutoff(range, disk.checkpoint, now, hours);
    disk.dirs := disk.dirs + {DailyFolder(app, day)};
    var path := RawFilePath(app, day, stamp);
    outcome := FetchNew(pages, cutoff, RangeTestOf(range));
    if outcome.Fetched? && outcome.reviews != [] {
      WatermarkBounds(pages, cutoff, RangeTestOf(range));
      disk.rawFiles := disk.rawFiles[path := outcome.reviews];
      disk.checkpoint := Stamp(outcome.latest.value);
    }
  }
}
