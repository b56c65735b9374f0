/**
 * The gmgn row mapping (`extract_data`): each leaderboard row becomes one record, or is skipped
 * when any step raises.  The parsed page is abstracted: a row is its wallet cell (name,
 * address and Twitter anchors, each possibly missing) and, for every `td.g-table-cell`, the
 * texts of its `p.chakra-text` elements.
 */
module GmgnExtractor {
  import opened Wrappers
  import opened Text
  import opened PyNumbers
  import opened Windows
  import opened GmgnNormalizer

  /** An anchor element: its text and its `href` attribute, if it has one. */
  datatype Link = Link(text: string, href: Option<string>)

  /** The fixed-left wallet cell: its name, address and Twitter anchors, each possibly absent. */
  datatype WalletCell = WalletCell(nameLink: Option<Link>, addressLink: Option<Link>, twitterLink: Option<Link>)

  /** A leaderboard row: its wallet cell, if found, and the chakra texts of each table cell. */
  datatype GmgnRow = GmgnRow(walletCell: Option<WalletCell>, cells: seq<seq<string>>)

  /** `pnl_usd` as extracted: the converted amount, or the text the zero fallback stores. */
  datatype PnlUsd = Amount(amount: Decimal) | RawText(text: string)

  /** One extracted record.  `id` is the key the store is asked for; extraction never sets it. */
  datatype GmgnRecord = GmgnRecord(
    id: Option<int>,
    period: nat,
    walletName: string,
    walletAddress: string,
    win: string,
    loss: string,
    pnlPercentage: string,
    pnlUsd: PnlUsd,
    telegram: Option<string>,
    twitter: Option<string>)

  /** The day count a record is stored under. */
  function RecordPeriod(r: GmgnRecord): nat
  {
    r.period
  }

  const AddressMarker: string := "/address/"

  /** The table cell holding win and loss counts. */
  const StatsColumn: nat := 5

  /** The PnL column of a window: the cell after the wallet cell, shifted by the window's index. */
  function PnlColumn(w: Window): nat
  {
    Index(w) + 1
  }

  /** `.replace('%', '').strip().replace(',', '')`: each single-character replace is a removal. */
  function CleanPercent(t: string): string
  {
    Without(Strip(Without(t, {'%'})), {','})
  }

  /** `.replace('$', '').strip().replace(',', '')`. */
  function CleanUsd(t: string): string
  {
    Without(Strip(Without(t, {'$'})), {','})
  }

  /** `.strip().replace(',', '')`. */
  function CleanCount(t: string): string
  {
    Without(Strip(t), {','})
  }

  /**
   * The PnL pair taken from a window's cell: with two or more texts, the cleaned percentage and
   * the converted amount (`None` when the conversion raises); otherwise the zero fallback.
   */
  function PnlOf(texts: seq<string>): Option<(string, PnlUsd)>
  {
    if |texts| >= 2 then
      match ConvertToNumber(CleanUsd(texts[1]))
      case None => None
      case Some(d) => Some((CleanPercent(texts[0]), Amount(d)))
    else Some(("0", RawText("0")))
  }

  /** `twitter_link['href'] if twitter_link else None`; the outer `None` is the `KeyError`. */
  function TwitterOf(cell: WalletCell): Option<Option<string>>
  {
    match cell.twitterLink
    case None => Some(None)
    case Some(link) => if link.href.None? then None else Some(link.href)
  }

  /**
   * One row as `extract_data`'s loop body maps it; `None` wherever the body raises.  A record
   * takes its name from the stripped name anchor, its address from the `href` text between the
   * first `/address/` and the next one (or the end), and its Twitter handle from the Twitter
   * anchor's `href`, `None` when there is no such anchor.
   */
  function ExtractRow(row: GmgnRow, w: Window): (r: Option<GmgnRecord>)
    ensures r.Some? ==> r.value.period == Period(w) && r.value.telegram.None? && r.value.id.None?
  {
    if row.walletCell.None? then None
    else
      var cell := row.walletCell.value;
      if cell.nameLink.None? || cell.addressLink.None? || cell.addressLink.value.href.None? then None
      else
        var address := After(cell.addressLink.value.href.value, AddressMarker);
        var twitter := TwitterOf(cell);
        if address.None? || twitter.None? || PnlColumn(w) >= |row.cells| then None
        else
          var pnl := PnlOf(row.cells[PnlColumn(w)]);
          if pnl.None? || StatsColumn >= |row.cells| || |row.cells[StatsColumn]| < 3 then None
          else
            var stats := row.cells[StatsColumn];
            Some(GmgnRecord(
              id := None,
              period := Period(w),
              walletName := Strip(cell.nameLink.value.text),
              walletAddress := address.value,
              win := CleanCount(stats[1]),
              loss := CleanCount(stats[2]),
              pnlPercentage := pnl.value.0,
              pnlUsd := pnl.value.1,
              telegram := None,
              twitter := twitter.value))
  }

  /**
   * A row is kept exactly when nothing in the loop body raises: the wallet cell, its name and
   * address anchors and the address `href` are there, the `href` holds `/address/`, a Twitter
   * anchor has an `href`, the window's PnL cell exists and its amount (if it has two texts)
   * converts, and the stats cell has at least three texts.
   */
  lemma WellFormedRowKept(row: GmgnRow, w: Window)
    ensures ExtractRow(row, w).Some? <==>
      && row.walletCell.Some?
      && var cell := row.walletCell.value;
      && cell.nameLink.Some? && cell.addressLink.Some? && cell.addressLink.value.href.Some?
      && Contains(cell.addressLink.value.href.value, AddressMarker)
      && (cell.twitterLink.None? || cell.twitterLink.value.href.Some?)
      && PnlColumn(w) < |row.cells|
      && (|row.cells[PnlColumn(w)]| < 2 || ConvertToNumber(CleanUsd(row.cells[PnlColumn(w)][1])).Some?)
      && StatsColumn < |row.cells| && |row.cells[StatsColumn]| >= 3
  {
    if row.walletCell.Some? {
      var cell := row.walletCell.value;
      if cell.nameLink.Some? && cell.addressLink.Some? && cell.addressLink.value.href.Some? {
        var href := cell.addressLink.value.href.value;
        assert After(href, AddressMarker).Some? <==> Contains(href, AddressMarker);
        assert TwitterOf(cell).Some? <==> (cell.twitterLink.None? || cell.twitterLink.value.href.Some?);
        if PnlColumn(w) < |row.cells| {
          var texts := row.cells[PnlColumn(w)];
          assert PnlOf(texts).Some? <==> (|texts| < 2 || ConvertToNumber(CleanUsd(texts[1])).Some?);
        }
      }
    }
  }

  /**
   * A record takes its name from the stripped name anchor, its address from the `href` text
   * between the first `/address/` and the next one (or the end), and its Twitter handle from the
   * Twitter anchor's `href`, `None` when there is no such anchor.
   */
  lemma ExtractedRowFields(row: GmgnRow, w: Window)
    requires ExtractRow(row, w).Some?
    ensures var r := ExtractRow(row, w).value;
      && row.walletCell.Some?
      && var cell := row.walletCell.value;
      && cell.nameLink.Some? && cell.addressLink.Some? && cell.addressLink.value.href.Some?
      && r.walletName == Strip(cell.nameLink.value.text)
      && r.twitter == (if cell.twitterLink.Some? then cell.twitterLink.value.href else None)
      && var href := cell.addressLink.value.href.value;
      && After(href, AddressMarker) == Some(r.walletAddress)
      && Contains(href, AddressMarker)
      && var rest := href[Find(href, AddressMarker).value + |AddressMarker|..];
      && r.walletAddress <= rest
      && !Contains(r.walletAddress, AddressMarker)
      && (Contains(rest, AddressMarker) ==> OccursAt(rest, AddressMarker, |r.walletAddress|))
      && (!Contains(rest, AddressMarker) ==> r.walletAddress == rest)
  {
  }

  /** The records of a window's rows, in row order, skipped rows left out. */
  function ExtractRows(rows: seq<GmgnRow>, w: Window): seq<GmgnRecord>
    decreases |rows|
  {
    if rows == [] then [] else ExtractRows(rows[..|rows| - 1], w) + RowRecords(rows[|rows| - 1], w)
  }

  /** What one row adds to the list: its record, or nothing when the loop body raises. */
  function RowRecords(row: GmgnRow, w: Window): seq<GmgnRecord>
  {
    match ExtractRow(row, w)
    case None => []
    case Some(r) => [r]
  }

  /** `extract_data`'s loop: append each row's record, skip the rows that raise. */
  method ExtractData(rows: seq<GmgnRow>, w: Window) returns (data: seq<GmgnRecord>)
    ensures data == ExtractRows(rows, w)
  {
    data := [];
    for i := 0 to |rows|
      invariant data == ExtractRows(rows[..i], w)
    {
      assert rows[..i + 1][..i] == rows[..i];
      match ExtractRow(rows[i], w)
      case None =>
      case Some(r) =>
        data := data + [r];
    }
    assert rows[..|rows|] == rows;
  }

  /** Extraction works row by row: the records of two runs of rows are the two lists joined. */
  lemma {:induction false} ExtractRowsAppend(a: seq<GmgnRow>, b: seq<GmgnRow>, w: Window)
    ensures ExtractRows(a + b, w) == ExtractRows(a, w) + ExtractRows(b, w)
    decreases |b|
  {
    if b == [] {
      assert a + b == a;
    } else {
      var b' := b[..|b| - 1];
      assert (a + b)[..|a + b| - 1] == a + b';
      assert (a + b)[|a + b| - 1] == b[|b| - 1];
      ExtractRowsAppend(a, b', w);
    }
  }

  /**
   * No more records than rows; each record comes from one of the rows and carries the window's
   * period, no Telegram handle and no id.
   */
  lemma {:induction false} ExtractRowsShape(rows: seq<GmgnRow>, w: Window)
    ensures |ExtractRows(rows, w)| <= |rows|
    ensures forall r :: r in ExtractRows(rows, w) ==>
      (exists k :: 0 <= k < |rows| && ExtractRow(rows[k], w) == Some(r))
    ensures forall r :: r in ExtractRows(rows, w) ==>
      r.period == Period(w) && r.telegram.None? && r.id.None?
    decreases |rows|
  {
    if rows != [] {
      var front := rows[..|rows| - 1];
      ExtractRowsShape(front, w);
      forall r | r in ExtractRows(rows, w)
        ensures exists k :: 0 <= k < |rows| && ExtractRow(rows[k], w) == Some(r)
      {
        if r in ExtractRows(front, w) {
          var k :| 0 <= k < |front| && ExtractRow(front[k], w) == Some(r);
          assert rows[k] == front[k];
        } else {
          assert ExtractRow(rows[|rows| - 1], w) == Some(r);
        }
      }
    }
  }

  /** Rows that all extract give exactly one record each, in row order. */
  lemma {:induction false} AllRowsKept(rows: seq<GmgnRow>, w: Window, records: seq<GmgnRecord>)
    requires |records| == |rows|
    requires forall k {:trigger ExtractRow(rows[k], w)} :: 0 <= k < |rows| ==> ExtractRow(rows[k], w) == Some(records[k])
    ensures ExtractRows(rows, w) == records
    decreases |rows|
  {
    if rows != [] {
      var n := |rows| - 1;
      var front, init := rows[..n], records[..n];
      assert records == init + [records[n]];
      assert forall k :: 0 <= k < n ==> front[k] == rows[k] && init[k] == records[k];
      AllRowsKept(front, w, init);
      assert ExtractRow(rows[n], w) == Some(records[n]);
      assert ExtractRows(rows, w) == ExtractRows(front, w) + [records[n]];
    }
  }

  /**
   * With two or more texts in the window's PnL column, the percentage is the first one cleaned
   * and the amount is the conversion of the second one cleaned.
   */
  lemma PnlFromWindowColumn(row: GmgnRow, w: Window)
    requires ExtractRow(row, w).Some?
    requires PnlColumn(w) < |row.cells| && |row.cells[PnlColumn(w)]| >= 2
    ensures var texts := row.cells[PnlColumn(w)];
            var r := ExtractRow(row, w).value;
            && r.pnlPercentage == CleanPercent(texts[0])
            && r.pnlUsd.Amount?
            && ConvertToNumber(CleanUsd(texts[1])) == Some(r.pnlUsd.amount)
  {
    var texts := row.cells[PnlColumn(w)];
    assert PnlOf(texts).Some?;
  }

  /** With fewer than two texts in the window's PnL column, both PnL fields are the text `'0'`. */
  lemma ZeroFallback(row: GmgnRow, w: Window)
    requires ExtractRow(row, w).Some?
    requires PnlColumn(w) < |row.cells| && |row.cells[PnlColumn(w)]| < 2
    ensures ExtractRow(row, w).value.pnlPercentage == "0"
    ensures ExtractRow(row, w).value.pnlUsd == RawText("0")
  {
  }

  /** A USD text that does not convert skips the whole row; it is not replaced by zero. */
  lemma UnconvertibleUsdSkips(row: GmgnRow, w: Window)
    requires PnlColumn(w) < |row.cells| && |row.cells[PnlColumn(w)]| >= 2
    requires ConvertToNumber(CleanUsd(row.cells[PnlColumn(w)][1])) == None
    ensures ExtractRow(row, w).None?
  {
  }

  /** Cells other than the window's PnL column and the stats column do not affect the record. */
  lemma OtherColumnsIgnored(row: GmgnRow, w: Window, j: nat, texts: seq<string>)
    requires j < |row.cells| && j != PnlColumn(w) && j != StatsColumn
    ensures ExtractRow(GmgnRow(row.walletCell, row.cells[j := texts]), w) == ExtractRow(row, w)
  {
  }

  /** Win and loss are the second and third stats texts, stripped and without commas. */
  lemma CountsFromStats(row: GmgnRow, w: Window)
    requires ExtractRow(row, w).Some?
    ensures StatsColumn < |row.cells| && |row.cells[StatsColumn]| >= 3
    ensures ExtractRow(row, w).value.win == CleanCount(row.cells[StatsColumn][1])
    ensures ExtractRow(row, w).value.loss == CleanCount(row.cells[StatsColumn][2])
    ensures ',' !in ExtractRow(row, w).value.win && ',' !in ExtractRow(row, w).value.loss
  {
  }
}
