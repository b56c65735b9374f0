/**
 * The kolscan window extraction (`extract_data`): the social lookup is built from the page's
 * scripts, then every leaderboard user div becomes a record.  Only an `AttributeError` (a
 * missing element) skips a row; any other error in a row (a missing `href`, an `href`
 * without `/account/`, too few texts) leaves `extract_data` and fails the whole window.
 */
module KolscanExtractor {
  import opened Wrappers
  import opened Text
  import opened Windows
  import opened JsonValues
  import opened KolscanPayload
  import opened KolscanSocial

  /** The account anchor: the text of its `<h1>` (`None` when there is none) and its `href`. */
  datatype AccountLink = AccountLink(heading: Option<string>, href: Option<string>)

  /**
   * A leaderboard user div: its account anchor, the `<p>` texts of its `remove-mobile` div and
   * the `<h1>` texts of its total-profit div, each `None` when the element is missing.
   */
  datatype KolRow = KolRow(link: Option<AccountLink>, winLoss: Option<seq<string>>, pnl: Option<seq<string>>)

  /** What the page offers: the `<script>` strings in document order, and the user divs. */
  datatype KolPage = KolPage(scripts: seq<Option<string>>, rows: seq<KolRow>)

  /** One extracted record. */
  datatype KolRecord = KolRecord(
    period: nat,
    walletName: string,
    walletAddress: string,
    win: string,
    loss: string,
    pnlUsd: string,
    pnlSol: string,
    telegram: Json,
    twitter: Json)

  /** What the row loop does with one row. */
  datatype RowOutcome = Extracted(record: KolRecord) | Skipped | Aborted

  const AccountMarker: string := "/account/"

  /** The characters `pnl_usd` drops: `,`, `$`, `(` and `)`. */
  const UsdJunk: set<char> := {',', '$', '(', ')'}

  /** `pnl_usd`: the text without thousands separators, dollar sign and parentheses, stripped. */
  function CleanUsd(t: string): string
  {
    Strip(Without(t, UsdJunk))
  }

  /** `pnl_sol`: the text with every `Sol` removed, stripped. */
  function CleanSol(t: string): string
  {
    Strip(ReplaceAll(t, "Sol", ""))
  }

  /** The day count a record is stored under. */
  function KolPeriod(r: KolRecord): nat
  {
    r.period
  }

  /**
   * One row as the loop body treats it, following the order in which the source reads it: a
   * missing anchor, heading, win/loss div or profit div is an `AttributeError` and skips the
   * row; a missing `href`, an `href` without `/account/`, or fewer than two win/loss or profit
   * texts raises another error and aborts the window.
   */
  function ExtractRow(row: KolRow, w: Window, lookup: map<string, Social>): (r: RowOutcome)
    ensures r.Skipped? <==>
      || row.link.None? || row.link.value.heading.None?
      || (row.link.value.href.Some? && Contains(row.link.value.href.value, AccountMarker)
          && (row.winLoss.None? || (|row.winLoss.value| >= 2 && row.pnl.None?)))
    ensures r.Aborted? <==>
      && row.link.Some? && row.link.value.heading.Some?
      && (|| row.link.value.href.None?
          || !Contains(row.link.value.href.value, AccountMarker)
          || (row.winLoss.Some? && (|row.winLoss.value| < 2 || (row.pnl.Some? && |row.pnl.value| < 2))))
    ensures r.Extracted? ==> r.record.period == Period(w)
    ensures r.Extracted? ==>
      && row.link.Some? && row.link.value.heading.Some?
      && r.record.walletName == Strip(row.link.value.heading.value)
      && row.winLoss.Some? && |row.winLoss.value| >= 2
      && r.record.win == Strip(row.winLoss.value[0]) && r.record.loss == Strip(row.winLoss.value[1])
      && row.pnl.Some? && |row.pnl.value| >= 2
      && r.record.pnlUsd == CleanUsd(row.pnl.value[1]) && r.record.pnlSol == CleanSol(row.pnl.value[0])
    ensures r.Extracted? ==>
      && row.link.Some? && row.link.value.href.Some?
      && Contains(row.link.value.href.value, AccountMarker)
      && After(row.link.value.href.value, AccountMarker) == Some(r.record.walletAddress)
    ensures r.Extracted? ==>
      Social(r.record.telegram, r.record.twitter) == SocialOf(lookup, r.record.walletAddress)
  {
    if row.link.None? || row.link.value.heading.None? then Skipped
    else if row.link.value.href.None? then Aborted
    else
      match After(row.link.value.href.value, AccountMarker)
      case None => Aborted
      case Some(address) =>
        if row.winLoss.None? then Skipped
        else if |row.winLoss.value| < 2 then Aborted
        else if row.pnl.None? then Skipped
        else if |row.pnl.value| < 2 then Aborted
        else
          var social := SocialOf(lookup, address);
          Extracted(KolRecord(
            period := Period(w),
            walletName := Strip(row.link.value.heading.value),
            walletAddress := address,
            win := Strip(row.winLoss.value[0]),
            loss := Strip(row.winLoss.value[1]),
            pnlUsd := CleanUsd(row.pnl.value[1]),
            pnlSol := CleanSol(row.pnl.value[0]),
            telegram := social.telegram,
            twitter := social.twitter))
  }

  /** What the loop body does with each row, in order. */
  function OutcomesOf(rows: seq<KolRow>, w: Window, lookup: map<string, Social>): (outs: seq<RowOutcome>)
    ensures |outs| == |rows|
    ensures forall k :: 0 <= k < |rows| ==> outs[k] == ExtractRow(rows[k], w, lookup)
  {
    seq(|rows|, k requires 0 <= k < |rows| => ExtractRow(rows[k], w, lookup))
  }

  /**
   * The row loop over the outcomes: the extracted records in order, or `None` once an outcome
   * aborts it; it fails exactly when some row aborts.
   */
  function Gather(outs: seq<RowOutcome>): (r: Option<seq<KolRecord>>)
    ensures r.None? <==> exists k :: 0 <= k < |outs| && outs[k].Aborted?
    decreases |outs|
  {
    if outs == [] then Some([])
    else
      var front := outs[..|outs| - 1];
      assert forall k :: 0 <= k < |front| ==> front[k] == outs[k];
      match Gather(front)
      case None => None
      case Some(x) =>
        match outs[|outs| - 1]
        case Extracted(r) => Some(x + [r])
        case Skipped => Some(x)
        case Aborted => None
  }

  /** The row loop's result for a window. */
  function ExtractRows(rows: seq<KolRow>, w: Window, lookup: map<string, Social>): Option<seq<KolRecord>>
  {
    Gather(OutcomesOf(rows, w, lookup))
  }

  /** A window's records: `None` when `extract_data` raises. */
  function ExtractWindow(page: KolPage, w: Window, decode: string -> Option<seq<Json>>): Option<seq<KolRecord>>
  {
    match SocialText(page.scripts)
    case None => None
    case Some(text) =>
      match BuildLookup(decode(text))
      case Escaped => None
      case Built(lookup) => ExtractRows(page.rows, w, lookup)
  }

  /**
   * `extract_data`: combine the push scripts, cut and rewrite the payload, build the lookup
   * from its decoding, then run the row loop.  `None` is the exception it raises.
   */
  method ExtractData(page: KolPage, w: Window, decode: string -> Option<seq<Json>>) returns (r: Option<seq<KolRecord>>)
    ensures r == ExtractWindow(page, w, decode)
  {
    var combined := CombinePushContent(page.scripts);
    var payload := Payload(combined);
    if payload.None? {
      return None;
    }
    var lookup := BuildLookup(decode("[" + Rewritten(payload.value) + "]"));
    if lookup.Escaped? {
      return None;
    }
    r := ExtractRowLoop(page.rows, w, lookup.table);
  }

  /** The row loop of `extract_data`: a record per extracted row, in order, until a row aborts. */
  method ExtractRowLoop(rows: seq<KolRow>, w: Window, lookup: map<string, Social>) returns (r: Option<seq<KolRecord>>)
    ensures r == ExtractRows(rows, w, lookup)
  {
    var data: seq<KolRecord> := [];
    ghost var outs := OutcomesOf(rows, w, lookup);
    for i := 0 to |rows|
      invariant Gather(outs[..i]) == Some(data)
    {
      GatherNext(outs, i);
      var outcome := ExtractRow(rows[i], w, lookup);
      assert outcome == outs[i];
      match outcome
      case Aborted =>
        assert outs[i].Aborted?;
        return None;
      case Skipped =>
      case Extracted(record) =>
        data := data + [record];
    }
    assert outs[..|rows|] == outs;
    return Some(data);
  }

  /** One more outcome: an extracted record is appended, a skip changes nothing, an abort fails. */
  lemma GatherNext(outs: seq<RowOutcome>, i: nat)
    requires i < |outs| && Gather(outs[..i]).Some?
    ensures outs[i].Extracted? ==> Gather(outs[..i + 1]) == Some(Gather(outs[..i]).value + [outs[i].record])
    ensures outs[i].Skipped? ==> Gather(outs[..i + 1]) == Gather(outs[..i])
    ensures outs[i].Aborted? ==> Gather(outs) == None
  {
    assert outs[..i + 1][..i] == outs[..i];
  }

  /** Without an abort, every gathered record comes from an extracted row, and none is invented. */
  lemma {:induction false} GatherKeeps(outs: seq<RowOutcome>)
    requires Gather(outs).Some?
    ensures |Gather(outs).value| <= |outs|
    ensures forall r :: r in Gather(outs).value ==> exists k :: 0 <= k < |outs| && outs[k] == Extracted(r)
    decreases |outs|
  {
    if outs != [] {
      var n := |outs| - 1;
      var front := outs[..n];
      GatherKeeps(front);
      forall r | r in Gather(outs).value ensures exists k :: 0 <= k < |outs| && outs[k] == Extracted(r) {
        if r in Gather(front).value {
          var k :| 0 <= k < n && front[k] == Extracted(r);
          assert outs[k] == Extracted(r);
        } else {
          assert outs[n] == Extracted(r);
        }
      }
    }
  }

  /** Gathering two runs of outcomes: the second continues from the first's records. */
  lemma {:induction false} GatherAppend(a: seq<RowOutcome>, b: seq<RowOutcome>)
    requires Gather(a).Some? && Gather(b).Some?
    ensures Gather(a + b) == Some(Gather(a).value + Gather(b).value)
    decreases |b|
  {
    if b == [] {
      assert a + b == a;
      assert Gather(b) == Some([]);
      assert Gather(a).value + [] == Gather(a).value;
    } else {
      var b' := b[..|b| - 1];
      assert (a + b)[..|a + b| - 1] == a + b';
      assert forall k :: 0 <= k < |b'| ==> b'[k] == b[k];
      GatherAppend(a, b');
      var x, y := Gather(a).value, Gather(b').value;
      match b[|b| - 1]
      case Extracted(r) => assert x + (y + [r]) == x + y + [r];
      case Skipped =>
    }
  }

  /**
   * The row loop fails exactly when some row aborts; otherwise it keeps at most one record
   * per row, each the record of an extracted row.
   */
  lemma RowLoopOutcome(rows: seq<KolRow>, w: Window, lookup: map<string, Social>)
    ensures ExtractRows(rows, w, lookup).None? <==> exists k :: 0 <= k < |rows| && ExtractRow(rows[k], w, lookup).Aborted?
    ensures ExtractRows(rows, w, lookup).Some? ==>
      && |ExtractRows(rows, w, lookup).value| <= |rows|
      && forall r :: r in ExtractRows(rows, w, lookup).value ==>
           exists k :: 0 <= k < |rows| && ExtractRow(rows[k], w, lookup) == Extracted(r)
  {
    var outs := OutcomesOf(rows, w, lookup);
    if Gather(outs).Some? {
      GatherKeeps(outs);
    }
  }

  /** Every record of a window carries the window's period. */
  lemma RowPeriods(rows: seq<KolRow>, w: Window, lookup: map<string, Social>)
    requires ExtractRows(rows, w, lookup).Some?
    ensures forall r :: r in ExtractRows(rows, w, lookup).value ==> KolPeriod(r) == Period(w)
  {
    GatherKeeps(OutcomesOf(rows, w, lookup));
  }

  /** A row whose anchor has an `href` without `/account/` fails the whole window. */
  lemma AddressWithoutMarkerAborts(rows: seq<KolRow>, k: int, w: Window, lookup: map<string, Social>)
    requires 0 <= k < |rows|
    requires rows[k].link.Some? && rows[k].link.value.heading.Some? && rows[k].link.value.href.Some?
    requires !Contains(rows[k].link.value.href.value, AccountMarker)
    ensures ExtractRows(rows, w, lookup).None?
  {
    assert OutcomesOf(rows, w, lookup)[k].Aborted?;
  }

  /** A row with fewer than two win/loss texts, or fewer than two profit texts, fails the whole window. */
  lemma TooFewTextsAbort(rows: seq<KolRow>, k: int, w: Window, lookup: map<string, Social>)
    requires 0 <= k < |rows|
    requires rows[k].link.Some? && rows[k].link.value.heading.Some? && rows[k].link.value.href.Some?
    requires Contains(rows[k].link.value.href.value, AccountMarker)
    requires rows[k].winLoss.Some?
    requires |rows[k].winLoss.value| < 2 || (rows[k].pnl.Some? && |rows[k].pnl.value| < 2)
    ensures ExtractRows(rows, w, lookup).None?
  {
    assert OutcomesOf(rows, w, lookup)[k].Aborted?;
  }

  /** A row missing its anchor, heading, win/loss div or profit div is skipped, not fatal. */
  lemma MissingElementSkips(row: KolRow, w: Window, lookup: map<string, Social>)
    requires || row.link.None? || row.link.value.heading.None?
             || (row.link.value.href.Some? && Contains(row.link.value.href.value, AccountMarker)
                 && (row.winLoss.None? || (|row.winLoss.value| >= 2 && row.pnl.None?)))
    ensures ExtractRow(row, w, lookup) == Skipped
  {
  }

  /** A skipped outcome leaves no trace in what the loop gathers. */
  lemma GatherSkip(a: seq<RowOutcome>, b: seq<RowOutcome>)
    ensures Gather(a + [Skipped] + b) == Gather(a + b)
  {
    if Gather(a).Some? && Gather(b).Some? {
      assert Gather([Skipped]) == Some([]) by {
        assert [Skipped][..0] == [];
      }
      GatherAppend(a, [Skipped]);
      GatherAppend(a + [Skipped], b);
      GatherAppend(a, b);
    } else if Gather(a).None? {
      var k :| 0 <= k < |a| && a[k].Aborted?;
      assert (a + [Skipped] + b)[k].Aborted? && (a + b)[k].Aborted?;
    } else {
      var k :| 0 <= k < |b| && b[k].Aborted?;
      assert (a + [Skipped] + b)[|a| + 1 + k].Aborted? && (a + b)[|a| + k].Aborted?;
    }
  }

  /** The outcomes of two runs of rows, one after the other. */
  lemma OutcomesAppend(a: seq<KolRow>, b: seq<KolRow>, w: Window, lookup: map<string, Social>)
    ensures OutcomesOf(a + b, w, lookup) == OutcomesOf(a, w, lookup) + OutcomesOf(b, w, lookup)
  {
  }

  /** Skipped rows leave no trace: removing one does not change the window's records. */
  lemma SkippedRowIgnored(a: seq<KolRow>, row: KolRow, b: seq<KolRow>, w: Window, lookup: map<string, Social>)
    requires ExtractRow(row, w, lookup) == Skipped
    ensures ExtractRows(a + [row] + b, w, lookup) == ExtractRows(a + b, w, lookup)
  {
    OutcomesAppend(a + [row], b, w, lookup);
    OutcomesAppend(a, [row], w, lookup);
    OutcomesAppend(a, b, w, lookup);
    assert OutcomesOf([row], w, lookup) == [Skipped];
    GatherSkip(OutcomesOf(a, w, lookup), OutcomesOf(b, w, lookup));
  }

  /** `pnl_usd` as written, four single-character replaces, is the removal of UsdJunk. */
  lemma CleanUsdIsReplaceChain(t: string)
    ensures CleanUsd(t) == Strip(ReplaceAll(ReplaceAll(ReplaceAll(ReplaceAll(t, ",", ""), "$", ""), "(", ""), ")", ""))
  {
    var t1 := ReplaceAll(t, ",", "");
    var t2 := ReplaceAll(t1, "$", "");
    var t3 := ReplaceAll(t2, "(", "");
    ReplaceCharIsWithout(t, ',');
    ReplaceCharIsWithout(t1, '$');
    ReplaceCharIsWithout(t2, '(');
    ReplaceCharIsWithout(t3, ')');
    WithoutWithout(t, {','}, {'$'});
    WithoutWithout(t, {',', '$'}, {'('});
    WithoutWithout(t, {',', '$', '('}, {')'});
    assert {','} + {'$'} == {',', '$'};
    assert {',', '$'} + {'('} == {',', '$', '('};
    assert {',', '$', '('} + {')'} == UsdJunk;
  }

  /** An amount followed by its `Sol` unit keeps just the amount. */
  lemma SolUnitRemoved(amount: string)
    requires 'S' !in amount
    ensures CleanSol(amount + "Sol") == Strip(amount)
  {
    ReplaceTrailing(amount, "Sol");
  }
}
