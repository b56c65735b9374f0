/**
 * The kolscan orchestrator (`scrape_kolscan`) and its window selector (`click_time_filter`).
 * The windows run in order; a window whose button cannot be clicked or whose extraction raises
 * contributes nothing, and the records of all windows are saved together.
 */
module KolscanScraper {
  import opened Wrappers
  import opened Windows
  import opened JsonValues
  import opened KolscanPayload
  import opened KolscanSocial
  import opened KolscanExtractor
  import opened KolscanStore

  /**
   * The time-filter bar as the wait sees it: whether its currently selected `<p>` is clickable,
   * and the texts of its clickable `<p>`s.
   */
  datatype FilterBar = FilterBar(selectedClickable: bool, clickableTexts: set<string>)

  /** What a window's XPath targets: Daily the selected `<p>`, the others the `<p>` with their name. */
  datatype ButtonTarget = SelectedButton | ButtonText(text: string)

  function Target(w: Window): (t: ButtonTarget)
    ensures t.SelectedButton? <==> w == Daily
  {
    match w
    case Daily => SelectedButton
    case Weekly => ButtonText("Weekly")
    case Monthly => ButtonText("Monthly")
  }

  /**
   * `click_time_filter`: one wait for the window's target to be clickable and one click; it
   * raises (false) when the wait gives up.  Nothing checks that the page changed.
   */
  function ClickTimeFilter(w: Window, bar: FilterBar): (clicked: bool)
    ensures w == Daily ==> (clicked <==> bar.selectedClickable)
    ensures w != Daily ==> (clicked <==> Target(w).text in bar.clickableTexts)
  {
    match Target(w)
    case SelectedButton => bar.selectedClickable
    case ButtonText(t) => t in bar.clickableTexts
  }

  /** One window's page: its filter bar, and what the page offers once the click is done. */
  datatype KolWindowPage = KolWindowPage(bar: FilterBar, page: KolPage)

  /** A window's records: none when the click or the extraction raises. */
  function WindowRecords(w: Window, p: KolWindowPage, decode: string -> Option<seq<Json>>): seq<KolRecord>
  {
    if ClickTimeFilter(w, p.bar) then ExtractWindow(p.page, w, decode).GetOr([]) else []
  }

  /**
   * The wait looks at the window's own target only: two filter bars that agree on it (the
   * selected button for Daily, the window's label otherwise) give the same click, and so the
   * same records for the same page, however they differ on every other button.
   */
  lemma ClickSeesOnlyTarget(w: Window, bar: FilterBar, bar': FilterBar, page: KolPage,
                            decode: string -> Option<seq<Json>>)
    requires w == Daily ==> bar.selectedClickable == bar'.selectedClickable
    requires w != Daily ==> (Target(w).text in bar.clickableTexts <==> Target(w).text in bar'.clickableTexts)
    ensures ClickTimeFilter(w, bar) == ClickTimeFilter(w, bar')
    ensures WindowRecords(w, KolWindowPage(bar, page), decode) == WindowRecords(w, KolWindowPage(bar', page), decode)
  {
  }

  /** The records of the first `n` windows of the scrape order, concatenated. */
  function CollectUpTo(pages: ByWindow<KolWindowPage>, decode: string -> Option<seq<Json>>, n: nat): seq<KolRecord>
    requires n <= |Order|
  {
    if n == 0 then []
    else CollectUpTo(pages, decode, n - 1) + WindowRecords(Order[n - 1], pages.Get(Order[n - 1]), decode)
  }

  /** `all_data` after the window loop. */
  function CollectSpec(pages: ByWindow<KolWindowPage>, decode: string -> Option<seq<Json>>): seq<KolRecord>
  {
    CollectUpTo(pages, decode, |Order|)
  }

  /** One pass of the window loop's body: click the window's button, then extract its page. */
  method ScrapeWindow(w: Window, p: KolWindowPage, decode: string -> Option<seq<Json>>) returns (data: seq<KolRecord>)
    ensures data == WindowRecords(w, p, decode)
  {
    data := [];
    if ClickTimeFilter(w, p.bar) {
      var extracted := ExtractData(p.page, w, decode);
      if extracted.Some? {
        data := extracted.value;
      }
    }
  }

  /** The window loop of `scrape_kolscan`: click, extract and extend, window by window. */
  method Collect(pages: ByWindow<KolWindowPage>, decode: string -> Option<seq<Json>>) returns (all: seq<KolRecord>)
    ensures all == CollectSpec(pages, decode)
  {
    all := [];
    for i := 0 to |Order|
      invariant all == CollectUpTo(pages, decode, i)
    {
      var w := Order[i];
      var data := ScrapeWindow(w, pages.Get(w), decode);
      all := all + data;
    }
  }

  /**
   * `scrape_kolscan`: when the leaderboard loads (`navigated`), the collected records replace the
   * table's contents; when navigation raises, the table is left alone.
   */
  method ScrapeKolscan(table: KolTable, navigated: bool, pages: ByWindow<KolWindowPage>, decode: string -> Option<seq<Json>>)
    modifies table
    ensures table.entries == if navigated then Snapshot(CollectSpec(pages, decode)) else old(table.entries)
  {
    if navigated {
      var all := Collect(pages, decode);
      table.SaveToDatabase(all);
    }
  }

  /** The collected list is the daily, weekly and monthly records, in that order. */
  lemma CollectInOrder(pages: ByWindow<KolWindowPage>, decode: string -> Option<seq<Json>>)
    ensures CollectSpec(pages, decode) ==
      WindowRecords(Daily, pages.daily, decode) + WindowRecords(Weekly, pages.weekly, decode)
      + WindowRecords(Monthly, pages.monthly, decode)
  {
    var d := WindowRecords(Daily, pages.daily, decode);
    var k := WindowRecords(Weekly, pages.weekly, decode);
    assert Order[0] == Daily && Order[1] == Weekly && Order[2] == Monthly;
    assert CollectUpTo(pages, decode, 0) == [];
    assert CollectUpTo(pages, decode, 1) == d;
    assert CollectUpTo(pages, decode, 2) == d + k;
  }

  /** Every record of a window carries the window's period. */
  lemma WindowPeriods(w: Window, p: KolWindowPage, decode: string -> Option<seq<Json>>)
    ensures forall r :: r in WindowRecords(w, p, decode) ==> KolPeriod(r) == Period(w)
  {
    var found := ExtractWindow(p.page, w, decode);
    if ClickTimeFilter(w, p.bar) && found.Some? {
      var lookup := BuildLookup(decode(SocialText(p.page.scripts).value)).table;
      assert found == ExtractRows(p.page.rows, w, lookup);
      RowPeriods(p.page.rows, w, lookup);
    }
  }

  /**
   * Failure isolation: the collected records stored under a window's period are exactly that
   * window's own records, whatever the other windows' pages did.
   */
  lemma WindowIsolation(pages: ByWindow<KolWindowPage>, decode: string -> Option<seq<Json>>, w: Window)
    ensures OfPeriod(CollectSpec(pages, decode), KolPeriod, Period(w)) == WindowRecords(w, pages.Get(w), decode)
  {
    var lists := ByWindow(
      WindowRecords(Daily, pages.daily, decode),
      WindowRecords(Weekly, pages.weekly, decode),
      WindowRecords(Monthly, pages.monthly, decode));
    assert CollectSpec(pages, decode) == lists.daily + lists.weekly + lists.monthly by {
      CollectInOrder(pages, decode);
    }
    assert lists.Get(w) == WindowRecords(w, pages.Get(w), decode);
    WindowPeriods(Daily, pages.daily, decode);
    WindowPeriods(Weekly, pages.weekly, decode);
    WindowPeriods(Monthly, pages.monthly, decode);
    SeparateWindows(lists, KolPeriod, w);
  }

  /** A window whose button cannot be clicked, or whose extraction raises, contributes no record. */
  lemma FailedWindowContributesNothing(pages: ByWindow<KolWindowPage>, decode: string -> Option<seq<Json>>, w: Window)
    requires !ClickTimeFilter(w, pages.Get(w).bar) || ExtractWindow(pages.Get(w).page, w, decode).None?
    ensures forall r :: r in CollectSpec(pages, decode) ==> r.period != Period(w)
  {
    WindowIsolation(pages, decode, w);
    forall r | r in CollectSpec(pages, decode) ensures r.period != Period(w) {
      if r.period == Period(w) {
        OfPeriodKeeps(CollectSpec(pages, decode), KolPeriod, r);
        assert false;
      }
    }
  }

  /** Every collected record is stored under one of the three periods. */
  lemma CollectedPeriods(pages: ByWindow<KolWindowPage>, decode: string -> Option<seq<Json>>)
    ensures forall r :: r in CollectSpec(pages, decode) ==> r.period in {1, 7, 30}
  {
    CollectInOrder(pages, decode);
    WindowPeriods(Daily, pages.daily, decode);
    WindowPeriods(Weekly, pages.weekly, decode);
    WindowPeriods(Monthly, pages.monthly, decode);
  }

  /**
   * The store keeps one row per wallet, so a wallet listed in the monthly window is stored with
   * period 30, whatever the daily and weekly windows said about it.
   */
  lemma MonthlyPeriodWins(pages: ByWindow<KolWindowPage>, decode: string -> Option<seq<Json>>, a: string)
    requires exists r :: r in WindowRecords(Monthly, pages.monthly, decode) && r.walletAddress == a
    ensures a in Snapshot(CollectSpec(pages, decode))
    ensures Snapshot(CollectSpec(pages, decode))[a].period == 30
  {
    CollectInOrder(pages, decode);
    WindowPeriods(Monthly, pages.monthly, decode);
    LaterRecordsDecidePeriod(
      WindowRecords(Daily, pages.daily, decode) + WindowRecords(Weekly, pages.weekly, decode),
      WindowRecords(Monthly, pages.monthly, decode), a, 30);
  }
}
