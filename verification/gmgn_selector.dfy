/**
 * The gmgn window selector (`click_time_filter`): up to three attempts, each re-querying the
 * PnL buttons, clicking every button whose label names the window, and succeeding only when
 * the page source after the clicks differs from the source captured just before them.
 *
 * The browser is abstracted as observations: for each attempt, either the wait for the buttons
 * raised, or the list of buttons found, each with its text (or a raise while reading it) and
 * what clicking it did (a raise, or the page source before and after).
 */
module GmgnSelector {
  import opened Wrappers
  import opened Text
  import opened Windows

  /** `pnl_text[period]`: the label the window's button carries. */
  function PnlLabel(w: Window): string
  {
    match w
    case Daily => "1D PnL"
    case Weekly => "7D PnL"
    case Monthly => "30D PnL"
  }

  const MaxAttempts: nat := 3

  /** What clicking a button twice did: something raised, or the page source before and after. */
  datatype ClickObs = ClickRaises | Clicked(before: string, after: string)

  /** A button as found: its text (`None` when reading it raised) and the effect of clicking it. */
  datatype ButtonObs = ButtonObs(text: Option<string>, click: ClickObs)

  /** One attempt: the wait for (or query of) the buttons raised, or these buttons were found. */
  datatype AttemptObs = AttemptRaises | Buttons(buttons: seq<ButtonObs>)

  /** How the selector ended: the attempt that switched the window, or the exception it raises. */
  datatype Selection = Selected(attempt: nat) | SelectionFailed

  /** A button that carries the window's label and whose clicks changed the page source. */
  predicate Switches(w: Window, b: ButtonObs)
  {
    && b.text.Some? && Contains(b.text.value, PnlLabel(w))
    && b.click.Clicked? && b.click.after != b.click.before
  }

  predicate AttemptSucceeds(w: Window, a: AttemptObs)
  {
    a.Buttons? && exists k :: 0 <= k < |a.buttons| && Switches(w, a.buttons[k])
  }

  /**
   * `find_and_click_button`: scans the buttons in order and returns at the first one that
   * switches the page; a button that raises, or whose clicks leave the page as it was, is passed.
   */
  method FindAndClickButton(w: Window, buttons: seq<ButtonObs>) returns (switched: bool)
    ensures switched <==> exists k :: 0 <= k < |buttons| && Switches(w, buttons[k])
  {
    var wanted := PnlLabel(w);
    for i := 0 to |buttons|
      invariant forall k :: 0 <= k < i ==> !Switches(w, buttons[k])
    {
      var b := buttons[i];
      if b.text.Some? && Contains(b.text.value, wanted) {
        match b.click
        case ClickRaises =>
        case Clicked(before, after) =>
          if after != before {
            return true;
          }
      }
    }
    return false;
  }

  /** The first attempt, from `from` on and below MaxAttempts, whose buttons switch the window. */
  function FirstSuccess(w: Window, attempts: seq<AttemptObs>, from: nat): (r: Selection)
    requires |attempts| == MaxAttempts && from <= MaxAttempts
    ensures r.Selected? ==> from <= r.attempt < MaxAttempts && AttemptSucceeds(w, attempts[r.attempt])
    ensures r.Selected? ==> forall j :: from <= j < r.attempt ==> !AttemptSucceeds(w, attempts[j])
    ensures r.SelectionFailed? <==> forall j :: from <= j < MaxAttempts ==> !AttemptSucceeds(w, attempts[j])
    decreases MaxAttempts - from
  {
    if from == MaxAttempts then SelectionFailed
    else if AttemptSucceeds(w, attempts[from]) then Selected(from)
    else FirstSuccess(w, attempts, from + 1)
  }

  /** What the selector does with these observations: the first successful attempt, if any. */
  function SelectSpec(w: Window, attempts: seq<AttemptObs>): Selection
    requires |attempts| == MaxAttempts
  {
    FirstSuccess(w, attempts, 0)
  }

  /**
   * `click_time_filter`: the retry loop.  A raising attempt and an attempt that finds no
   * switching button are both retried; after the last one the selector gives up.
   */
  method ClickTimeFilter(w: Window, attempts: seq<AttemptObs>) returns (r: Selection)
    requires |attempts| == MaxAttempts
    ensures r == SelectSpec(w, attempts)
  {
    for attempt := 0 to MaxAttempts
      invariant forall j :: 0 <= j < attempt ==> !AttemptSucceeds(w, attempts[j])
    {
      match attempts[attempt]
      case AttemptRaises =>
      case Buttons(buttons) =>
        var switched := FindAndClickButton(w, buttons);
        if switched {
          return Selected(attempt);
        }
    }
    return SelectionFailed;
  }

  /** A selection is reported at an attempt exactly when it is the first one that switches. */
  lemma SelectedIsFirst(w: Window, attempts: seq<AttemptObs>, i: nat)
    requires |attempts| == MaxAttempts && i < MaxAttempts
    ensures SelectSpec(w, attempts) == Selected(i)
        <==> AttemptSucceeds(w, attempts[i]) && forall j :: 0 <= j < i ==> !AttemptSucceeds(w, attempts[j])
  {
  }

  /**
   * A button that carries the label but whose clicks leave the page source unchanged does not
   * count: two such attempts and a third that switches the page select on the third attempt.
   */
  lemma RetriesUntilPageChanges(w: Window, page: string, other: string)
    requires page != other
    ensures var stale := Buttons([ButtonObs(Some(PnlLabel(w)), Clicked(page, page))]);
            var switching := Buttons([ButtonObs(Some(PnlLabel(w)), Clicked(page, other))]);
            SelectSpec(w, [stale, stale, switching]) == Selected(2)
  {
    var stale := Buttons([ButtonObs(Some(PnlLabel(w)), Clicked(page, page))]);
    var switching := Buttons([ButtonObs(Some(PnlLabel(w)), Clicked(page, other))]);
    assert OccursAt(PnlLabel(w), PnlLabel(w), 0);
    assert Switches(w, switching.buttons[0]);
    assert AttemptSucceeds(w, switching);
    assert !AttemptSucceeds(w, stale);
    SelectedIsFirst(w, [stale, stale, switching], 2);
  }

  /** Three attempts that all raise make the selector fail. */
  lemma AllRaisingFails(w: Window)
    ensures SelectSpec(w, [AttemptRaises, AttemptRaises, AttemptRaises]) == SelectionFailed
  {
    var a := [AttemptRaises, AttemptRaises, AttemptRaises];
    assert forall j :: 0 <= j < MaxAttempts ==> !AttemptSucceeds(w, a[j]);
  }
}
