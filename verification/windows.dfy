/**
 * The three leaderboard windows both scrapers walk through, in the order they are scraped,
 * and the number of days each one is stored under.
 */
module Windows {
  import opened Wrappers

  datatype Window = Daily | Weekly | Monthly

  /** The order of the scrape loop, and of the `period_days` dictionary's keys. */
  const Order: seq<Window> := [Daily, Weekly, Monthly]

  /** `period_days[period]`: the day count a window's records carry. */
  function Period(w: Window): nat
  {
    match w
    case Daily => 1
    case Weekly => 7
    case Monthly => 30
  }

  /** The window a stored day count belongs to, if any: the inverse of Period. */
  function WindowOf(days: int): (w: Option<Window>)
    ensures w.Some? <==> days in {1, 7, 30}
  {
    if days == 1 then Some(Daily)
    else if days == 7 then Some(Weekly)
    else if days == 30 then Some(Monthly)
    else None
  }

  /** Period and WindowOf are inverse: a stored day count identifies its window. */
  lemma PeriodRoundTrip(w: Window, days: int)
    ensures WindowOf(Period(w)) == Some(w)
    ensures WindowOf(days).Some? ==> Period(WindowOf(days).value) == days
  {
  }

  /** `list(period_days.keys()).index(period)`: the window's position in the scrape order. */
  function Index(w: Window): (i: nat)
    ensures i < |Order| && Order[i] == w
  {
    match w
    case Daily => 0
    case Weekly => 1
    case Monthly => 2
  }

  /** One value per window: what the page offers, or what was collected, for each of the three. */
  datatype ByWindow<T> = ByWindow(daily: T, weekly: T, monthly: T) {
    function Get(w: Window): T {
      match w
      case Daily => daily
      case Weekly => weekly
      case Monthly => monthly
    }
  }

  /** The items of `xs` stored under `days`, in order; `period` gives each item's day count. */
  function OfPeriod<R>(xs: seq<R>, period: R -> nat, days: nat): (out: seq<R>)
    ensures |out| <= |xs|
    decreases |xs|
  {
    if xs == [] then []
    else OfPeriod(xs[..|xs| - 1], period, days) + if period(xs[|xs| - 1]) == days then [xs[|xs| - 1]] else []
  }

  /** Selecting by period distributes over concatenation. */
  lemma {:induction false} OfPeriodAppend<R>(a: seq<R>, b: seq<R>, period: R -> nat, days: nat)
    ensures OfPeriod(a + b, period, days) == OfPeriod(a, period, days) + OfPeriod(b, period, days)
    decreases |b|
  {
    if b == [] {
      assert a + b == a;
    } else {
      assert (a + b)[..|a + b| - 1] == a + b[..|b| - 1];
      OfPeriodAppend(a, b[..|b| - 1], period, days);
    }
  }

  /** Selecting by a period keeps a list of that period whole and empties a list of another. */
  lemma OfPeriodUniform<R>(xs: seq<R>, period: R -> nat, p: nat, days: nat)
    requires forall x :: x in xs ==> period(x) == p
    ensures OfPeriod(xs, period, days) == if p == days then xs else []
  {
    OfPeriodUniformAt(xs, period, p, days);
  }

  lemma {:induction false} OfPeriodUniformAt<R>(xs: seq<R>, period: R -> nat, p: nat, days: nat)
    requires forall k :: 0 <= k < |xs| ==> period(xs[k]) == p
    ensures OfPeriod(xs, period, days) == if p == days then xs else []
    decreases |xs|
  {
    if xs != [] {
      var n := |xs| - 1;
      var front := xs[..n];
      assert forall k :: 0 <= k < n ==> front[k] == xs[k];
      OfPeriodUniformAt(front, period, p, days);
      assert front + [xs[n]] == xs;
    }
  }

  /**
   * The daily, weekly and monthly lists concatenated in scrape order: selecting a window's period
   * gives back that window's own list.
   */
  lemma SeparateWindows<R>(lists: ByWindow<seq<R>>, period: R -> nat, w: Window)
    requires forall x :: x in lists.daily ==> period(x) == 1
    requires forall x :: x in lists.weekly ==> period(x) == 7
    requires forall x :: x in lists.monthly ==> period(x) == 30
    ensures OfPeriod(lists.daily + lists.weekly + lists.monthly, period, Period(w)) == lists.Get(w)
  {
    var d, k, m := lists.daily, lists.weekly, lists.monthly;
    var days := Period(w);
    assert OfPeriod(d + k + m, period, days) ==
           OfPeriod(d, period, days) + OfPeriod(k, period, days) + OfPeriod(m, period, days) by {
      OfPeriodAppend(d + k, m, period, days);
      OfPeriodAppend(d, k, period, days);
    }
    assert OfPeriod(d, period, days) == if days == 1 then d else [] by {
      OfPeriodUniform(d, period, 1, days);
    }
    assert OfPeriod(k, period, days) == if days == 7 then k else [] by {
      OfPeriodUniform(k, period, 7, days);
    }
    assert OfPeriod(m, period, days) == if days == 30 then m else [] by {
      OfPeriodUniform(m, period, 30, days);
    }
    match w
    case Daily => assert d + [] + [] == d;
    case Weekly => assert [] + k + [] == k;
    case Monthly => assert [] + [] + m == m;
  }

  /** Every item is kept by the selection of its own period. */
  lemma {:induction false} OfPeriodKeeps<R>(xs: seq<R>, period: R -> nat, x: R)
    requires x in xs
    ensures x in OfPeriod(xs, period, period(x))
    decreases |xs|
  {
    var front := xs[..|xs| - 1];
    if x != xs[|xs| - 1] {
      assert x in front by {
        assert xs == front + [xs[|xs| - 1]];
      }
      OfPeriodKeeps(front, period, x);
    }
  }
}
