/**
 * The gmgn orchestrator (`scrape_gmgn`): the three windows in order, each selected and then
 * extracted, a window whose selection raises contributing nothing, and the records of all
 * windows saved together.  The browser is abstracted as what each window's page offers.
 */
module GmgnScraper {
  import opened Windows
  import opened GmgnSelector
  import opened GmgnExtractor
  import opened GmgnStore

  /** One window's page: what the selector's three attempts observe, and the rows shown then. */
  datatype WindowPage = WindowPage(attempts: seq<AttemptObs>, rows: seq<GmgnRow>)

  /** Every window's page offers one observation per selector attempt. */
  predicate Complete(pages: ByWindow<WindowPage>)
  {
    && |pages.daily.attempts| == MaxAttempts
    && |pages.weekly.attempts| == MaxAttempts
    && |pages.monthly.attempts| == MaxAttempts
  }

  /** A window's records: none when the selector raises, otherwise the rows extracted. */
  function WindowRecords(w: Window, page: WindowPage): seq<GmgnRecord>
    requires |page.attempts| == MaxAttempts
  {
    if SelectSpec(w, page.attempts).Selected? then ExtractRows(page.rows, w) else []
  }

  /** The records of the first `n` windows of the scrape order, concatenated. */
  function CollectUpTo(pages: ByWindow<WindowPage>, n: nat): seq<GmgnRecord>
    requires Complete(pages) && n <= |Order|
  {
    if n == 0 then []
    else CollectUpTo(pages, n - 1) + WindowRecords(Order[n - 1], pages.Get(Order[n - 1]))
  }

  /** `all_data` after the window loop. */
  function CollectSpec(pages: ByWindow<WindowPage>): seq<GmgnRecord>
    requires Complete(pages)
  {
    CollectUpTo(pages, |Order|)
  }

  /** One pass of the window loop's body: select the window, then extract its rows. */
  method ScrapeWindow(w: Window, page: WindowPage) returns (data: seq<GmgnRecord>)
    requires |page.attempts| == MaxAttempts
    ensures data == WindowRecords(w, page)
  {
    var selection := ClickTimeFilter(w, page.attempts);
    if selection.Selected? {
      data := ExtractData(page.rows, w);
    } else {
      data := [];
    }
  }

  /** The window loop of `scrape_gmgn`: select, extract and extend, window by window. */
  method Collect(pages: ByWindow<WindowPage>) returns (all: seq<GmgnRecord>)
    requires Complete(pages)
    ensures all == CollectSpec(pages)
  {
    all := [];
    for i := 0 to |Order|
      invariant all == CollectUpTo(pages, i)
    {
      var w := Order[i];
      var data := ScrapeWindow(w, pages.Get(w));
      all := all + data;
    }
  }

  /**
   * `scrape_gmgn`: when the leaderboard loads (`navigated`), the collected records are saved;
   * when navigation raises, nothing is saved.
   */
  method ScrapeGmgn(table: GmgnTable, navigated: bool, pages: ByWindow<WindowPage>)
    requires table.Valid() && Complete(pages)
    modifies table
    ensures table.Valid()
    ensures table.State() == if navigated then SaveSpec(old(table.State()), CollectSpec(pages)) else old(table.State())
  {
    if navigated {
      var all := Collect(pages);
      table.SaveToDatabase(all);
    }
  }

  /** The collected list is the daily, weekly and monthly records, in that order. */
  lemma CollectInOrder(pages: ByWindow<WindowPage>)
    requires Complete(pages)
    ensures CollectSpec(pages) ==
      WindowRecords(Daily, pages.daily) + WindowRecords(Weekly, pages.weekly) + WindowRecords(Monthly, pages.monthly)
  {
    var d, k, m := WindowRecords(Daily, pages.daily), WindowRecords(Weekly, pages.weekly), WindowRecords(Monthly, pages.monthly);
    assert Order[0] == Daily && Order[1] == Weekly && Order[2] == Monthly;
    assert CollectUpTo(pages, 0) == [];
    assert CollectUpTo(pages, 1) == d;
    assert CollectUpTo(pages, 2) == d + k;
  }

  lemma WindowPeriods(w: Window, page: WindowPage)
    requires |page.attempts| == MaxAttempts
    ensures forall r :: r in WindowRecords(w, page) ==> RecordPeriod(r) == Period(w)
  {
    ExtractRowsShape(page.rows, w);
  }

  /**
   * Failure isolation: the collected records stored under a window's period are exactly that
   * window's own records, whatever the other windows' pages did.
   */
  lemma WindowIsolation(pages: ByWindow<WindowPage>, w: Window)
    requires Complete(pages)
    ensures OfPeriod(CollectSpec(pages), RecordPeriod, Period(w)) == WindowRecords(w, pages.Get(w))
  {
    var lists := ByWindow(WindowRecords(Daily, pages.daily), WindowRecords(Weekly, pages.weekly), WindowRecords(Monthly, pages.monthly));
    assert CollectSpec(pages) == lists.daily + lists.weekly + lists.monthly by {
      CollectInOrder(pages);
    }
    assert lists.Get(w) == WindowRecords(w, pages.Get(w));
    WindowPeriods(Daily, pages.daily);
    WindowPeriods(Weekly, pages.weekly);
    WindowPeriods(Monthly, pages.monthly);
    SeparateWindows(lists, RecordPeriod, w);
  }

  /** A window whose selector gives up contributes no record. */
  lemma FailedWindowContributesNothing(pages: ByWindow<WindowPage>, w: Window)
    requires Complete(pages)
    requires SelectSpec(w, pages.Get(w).attempts) == SelectionFailed
    ensures forall r :: r in CollectSpec(pages) ==> r.period != Period(w)
  {
    WindowIsolation(pages, w);
    forall r | r in CollectSpec(pages) ensures r.period != Period(w) {
      if r.period == Period(w) {
        OfPeriodKeeps(CollectSpec(pages), RecordPeriod, r);
        assert false;
      }
    }
  }

  /** Every collected record is stored under one of the three periods. */
  lemma CollectedPeriods(pages: ByWindow<WindowPage>)
    requires Complete(pages)
    ensures forall r :: r in CollectSpec(pages) ==> r.period in {1, 7, 30}
  {
    CollectInOrder(pages);
    WindowPeriods(Daily, pages.daily);
    WindowPeriods(Weekly, pages.weekly);
    WindowPeriods(Monthly, pages.monthly);
  }
}
