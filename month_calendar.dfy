/**
 * The month-at-a-time photo calendar (frontend/src/Images.tsx): the grid of a month with blank
 * cells before its first day, month navigation that never goes past the current month, and
 * the newest-first day list of the mobile layout. Months are `(year, month)` pairs.
 */
module MonthCalendar {
  import opened Wrappers
  import opened Types
  import opened Calendar

  /** A displayed month; `month` is 1..12. */
  datatype YearMonth = YearMonth(year: int, month: int)

  predicate ValidMonth(ym: YearMonth) {
    1 <= ym.month <= 12
  }

  /** `a` is a later month than `b`: the test that blocks navigation. */
  predicate Later(a: YearMonth, b: YearMonth) {
    a.year > b.year || (a.year == b.year && a.month > b.month)
  }

  /** Months counted from year 0, so that month arithmetic is integer arithmetic. */
  function MonthIndex(ym: YearMonth): int {
    ym.year * 12 + ym.month - 1
  }

  /** `setMonth(getMonth() + direction)` on the month: out-of-range months carry into the year. */
  function AddMonths(ym: YearMonth, direction: int): (r: YearMonth)
    ensures ValidMonth(r)
    ensures ValidMonth(ym) ==> MonthIndex(r) == MonthIndex(ym) + direction
  {
    var i := MonthIndex(ym) + direction;
    YearMonth(i / 12, i % 12 + 1)
  }

  lemma LaterIsIndexOrder(a: YearMonth, b: YearMonth)
    requires ValidMonth(a) && ValidMonth(b)
    ensures Later(a, b) <==> MonthIndex(a) > MonthIndex(b)
  {
  }

  /** `navigateMonth`: the month `direction` steps away, unless that is after the current month. */
  function NavigateMonth(prev: YearMonth, direction: int, current: YearMonth): (r: YearMonth)
    ensures Later(AddMonths(prev, direction), current) ==> r == prev
    ensures !Later(AddMonths(prev, direction), current) ==> r == AddMonths(prev, direction)
  {
    var next := AddMonths(prev, direction);
    if Later(next, current) then prev else next
  }

  /** Navigation never leaves the months up to the current one. */
  lemma NavigationStaysInPast(prev: YearMonth, direction: int, current: YearMonth)
    requires !Later(prev, current)
    ensures !Later(NavigateMonth(prev, direction, current), current)
  {
  }

  /** `canNavigateForward`: not showing the current month. */
  predicate CanNavigateForward(shown: YearMonth, current: YearMonth)
    ensures ValidMonth(shown) && ValidMonth(current) ==>
              (CanNavigateForward(shown, current) <==> MonthIndex(shown) != MonthIndex(current))
  {
    !(shown.year == current.year && shown.month == current.month)
  }

  /** Forward navigation moves exactly when the forward button is enabled. */
  lemma ForwardEnabledIffMoves(shown: YearMonth, current: YearMonth)
    requires ValidMonth(shown) && ValidMonth(current) && !Later(shown, current)
    ensures CanNavigateForward(shown, current) <==> NavigateMonth(shown, 1, current) != shown
    ensures CanNavigateForward(shown, current) ==> NavigateMonth(shown, 1, current) == AddMonths(shown, 1)
  {
    LaterIsIndexOrder(shown, current);
    LaterIsIndexOrder(AddMonths(shown, 1), current);
    if shown.year == current.year && shown.month == current.month {
      assert Later(AddMonths(shown, 1), current);
    } else {
      assert !Later(AddMonths(shown, 1), current);
      assert MonthIndex(AddMonths(shown, 1)) != MonthIndex(shown);
    }
  }

  function FirstDay(ym: YearMonth): Day
    requires ValidMonth(ym)
  {
    DaysFromCivil(Civil(ym.year, ym.month, 1))
  }

  /** `new Date(year, month + 1, 0)`: the day before the first of the next month. */
  function LastDay(ym: YearMonth): Day
    requires ValidMonth(ym)
  {
    var next := AddMonths(ym, 1);
    DaysFromCivil(Civil(next.year, next.month, 1)) - 1
  }

  /** The month after `ym`. */
  lemma NextMonth(ym: YearMonth)
    requires ValidMonth(ym)
    ensures ym.month < 12 ==> AddMonths(ym, 1) == YearMonth(ym.year, ym.month + 1)
    ensures ym.month == 12 ==> AddMonths(ym, 1) == YearMonth(ym.year + 1, 1)
  {
  }

  /** `lastDay.getDate()` is the Gregorian length of the month. */
  lemma LastDayIsMonthLength(ym: YearMonth)
    requires ValidMonth(ym)
    ensures CivilFromDays(LastDay(ym)) == Civil(ym.year, ym.month, DaysInMonth(ym.year, ym.month))
    ensures LastDay(ym) == FirstDay(ym) + DaysInMonth(ym.year, ym.month) - 1
  {
    var c := Civil(ym.year, ym.month, DaysInMonth(ym.year, ym.month));
    NextMonth(ym);
    NextMonthStart(c);
    DayOfMonth(ym.year, ym.month, c.day);
    assert LastDay(ym) == DaysFromCivil(c);
    CivilRoundTrip(c);
  }

  /** The number of days of the month, as the page reads it. */
  function DaysInShownMonth(ym: YearMonth): (n: int)
    requires ValidMonth(ym)
    ensures n == DaysInMonth(ym.year, ym.month)
  {
    LastDayIsMonthLength(ym);
    CivilFromDays(LastDay(ym)).day
  }

  /** `blanks` empty cells, then `n` consecutive days from `first`. */
  function Grid(blanks: nat, first: Day, n: nat): seq<Option<Day>> {
    seq(blanks, _ => None) + seq(n, k => Some(first + k))
  }

  lemma GridCells(blanks: nat, first: Day, n: nat)
    ensures |Grid(blanks, first, n)| == blanks + n
    ensures forall i :: 0 <= i < blanks ==> Grid(blanks, first, n)[i].None?
    ensures forall i :: blanks <= i < blanks + n ==> Grid(blanks, first, n)[i] == Some(first + i - blanks)
  {
  }

  /** Pushing a blank before any day, or the next day after the last, extends the grid. */
  lemma GridPush(blanks: nat, first: Day, n: nat)
    ensures Grid(blanks, first, 0) + [None] == Grid(blanks + 1, first, 0)
    ensures Grid(blanks, first, n) + [Some(first + n)] == Grid(blanks, first, n + 1)
  {
    GridCells(blanks, first, 0);
    GridCells(blanks + 1, first, 0);
    GridCells(blanks, first, n);
    GridCells(blanks, first, n + 1);
    var a, b := Grid(blanks, first, 0) + [None], Grid(blanks + 1, first, 0);
    assert |a| == |b| && forall i :: 0 <= i < |a| ==> a[i] == b[i];
    var c, d := Grid(blanks, first, n) + [Some(first + n)], Grid(blanks, first, n + 1);
    assert |c| == |d| && forall i :: 0 <= i < |c| ==> c[i] == d[i];
  }

  /** The month grid: one blank per weekday before the first of the month, then its days. */
  function MonthGrid(ym: YearMonth): seq<Option<Day>>
    requires ValidMonth(ym)
  {
    Grid(Weekday(FirstDay(ym)), FirstDay(ym), DaysInMonth(ym.year, ym.month))
  }

  /** `getDaysInMonth`: reads the first day, the month length and the first weekday, then fills the grid. */
  method GetDaysInMonth(ym: YearMonth) returns (days: seq<Option<Day>>)
    requires ValidMonth(ym)
    ensures days == MonthGrid(ym)
  {
    var firstDay := FirstDay(ym);
    var daysInMonth := DaysInShownMonth(ym);
    var startingDayOfWeek := Weekday(firstDay);
    days := FillGrid(ym, firstDay, daysInMonth, startingDayOfWeek);
  }

  /** The two loops of `getDaysInMonth`: the blanks, then `new Date(year, month, day)` for each day. */
  method FillGrid(ym: YearMonth, firstDay: Day, daysInMonth: nat, startingDayOfWeek: nat)
    returns (days: seq<Option<Day>>)
    requires ValidMonth(ym) && firstDay == FirstDay(ym)
    ensures days == Grid(startingDayOfWeek, firstDay, daysInMonth)
  {
    days := [];
    for i := 0 to startingDayOfWeek
      invariant days == Grid(i, firstDay, 0)
    {
      GridPush(i, firstDay, 0);
      days := days + [None];
    }
    var day := 1;
    while day <= daysInMonth
      invariant 1 <= day <= daysInMonth + 1
      invariant days == Grid(startingDayOfWeek, firstDay, day - 1)
    {
      var dayDate := DaysFromCivil(Civil(ym.year, ym.month, day));
      DayOfMonth(ym.year, ym.month, day);
      GridPush(startingDayOfWeek, firstDay, day - 1);
      days := days + [Some(dayDate)];
      day := day + 1;
    }
  }

  lemma DayOfMonth(y: int, m: int, d: int)
    requires 1 <= m <= 12
    ensures DaysFromCivil(Civil(y, m, d)) == DaysFromCivil(Civil(y, m, 1)) + d - 1
  {
  }

  lemma GridDays(y: int, m: int, blanks: nat, first: Day, n: nat)
    requires 1 <= m <= 12 && n <= DaysInMonth(y, m) && first == DaysFromCivil(Civil(y, m, 1))
    ensures |Grid(blanks, first, n)| == blanks + n
    ensures forall i :: 0 <= i < blanks ==> Grid(blanks, first, n)[i].None?
    ensures forall i :: blanks <= i < blanks + n ==>
              Grid(blanks, first, n)[i] == Some(DaysFromCivil(Civil(y, m, i - blanks + 1)))
  {
    GridCells(blanks, first, n);
    forall i | blanks <= i < blanks + n
      ensures Grid(blanks, first, n)[i] == Some(DaysFromCivil(Civil(y, m, i - blanks + 1)))
    {
      DayOfMonth(y, m, i - blanks + 1);
    }
  }

  /**
   * The grid has one blank per weekday before the first of the month, so the first falls in
   * the column of its weekday, and then holds the days 1, 2, ... of that month in order.
   */
  lemma MonthGridShape(ym: YearMonth)
    requires ValidMonth(ym)
    ensures |MonthGrid(ym)| == Weekday(FirstDay(ym)) + DaysInMonth(ym.year, ym.month)
    ensures forall i :: 0 <= i < Weekday(FirstDay(ym)) ==> MonthGrid(ym)[i].None?
    ensures forall i :: Weekday(FirstDay(ym)) <= i < |MonthGrid(ym)| ==>
              MonthGrid(ym)[i] == Some(DaysFromCivil(Civil(ym.year, ym.month, i - Weekday(FirstDay(ym)) + 1)))
  {
    var blanks, first, n := Weekday(FirstDay(ym)), FirstDay(ym), DaysInMonth(ym.year, ym.month);
    assert MonthGrid(ym) == Grid(blanks, first, n);
    GridDays(ym.year, ym.month, blanks, first, n);
  }

  /**
   * `filter(date => date !== null && !isDayInFuture(date)).reverse()`: the days of the grid up
   * to today, last first.
   */
  function MobileDays(cells: seq<Option<Day>>, today: Day): (r: seq<Day>)
    ensures forall d :: d in r <==> Some(d) in cells && d <= today
  {
    if cells == [] then []
    else
      var rest := MobileDays(cells[1..], today);
      assert cells == [cells[0]] + cells[1..];
      if cells[0].Some? && !IsDayInFuture(cells[0].value, today) then rest + [cells[0].value] else rest
  }

  /** The days of the grid that hold a date are strictly increasing. */
  predicate Ascending(cells: seq<Option<Day>>) {
    forall i, j :: 0 <= i < j < |cells| && cells[i].Some? && cells[j].Some? ==> cells[i].value < cells[j].value
  }

  lemma {:induction false} MobileDaysDescending(cells: seq<Option<Day>>, today: Day)
    requires Ascending(cells)
    ensures forall i, j :: 0 <= i < j < |MobileDays(cells, today)| ==>
              MobileDays(cells, today)[i] > MobileDays(cells, today)[j]
  {
    if cells != [] {
      MobileDaysDescending(cells[1..], today);
      var rest := MobileDays(cells[1..], today);
      if cells[0].Some? && cells[0].value <= today {
        forall d | d in rest
          ensures d > cells[0].value
        {
          var k :| 0 <= k < |cells[1..]| && cells[1..][k] == Some(d);
          assert cells[k + 1] == Some(d);
        }
        var r := rest + [cells[0].value];
        forall i, j | 0 <= i < j < |r|
          ensures r[i] > r[j]
        {
          if j == |r| - 1 {
            assert r[i] == rest[i] && rest[i] in rest;
          } else {
            assert r[i] == rest[i] && r[j] == rest[j];
          }
        }
      }
    }
  }

  lemma GridMobile(blanks: nat, first: Day, n: nat, today: Day)
    ensures forall d :: d in MobileDays(Grid(blanks, first, n), today) <==> first <= d < first + n && d <= today
    ensures forall i, j :: 0 <= i < j < |MobileDays(Grid(blanks, first, n), today)| ==>
              MobileDays(Grid(blanks, first, n), today)[i] > MobileDays(Grid(blanks, first, n), today)[j]
  {
    var grid := Grid(blanks, first, n);
    GridCells(blanks, first, n);
    forall d
      ensures Some(d) in grid <==> first <= d < first + n
    {
      if first <= d < first + n {
        assert grid[blanks + d - first] == Some(d);
      }
    }
    MobileDaysDescending(grid, today);
  }

  /** The mobile list of a month: its days up to today, strictly newest first. */
  lemma MonthMobileList(ym: YearMonth, today: Day)
    requires ValidMonth(ym)
    ensures forall d :: d in MobileDays(MonthGrid(ym), today) <==>
              FirstDay(ym) <= d < FirstDay(ym) + DaysInMonth(ym.year, ym.month) && d <= today
    ensures forall i, j :: 0 <= i < j < |MobileDays(MonthGrid(ym), today)| ==>
              MobileDays(MonthGrid(ym), today)[i] > MobileDays(MonthGrid(ym), today)[j]
  {
    GridMobile(Weekday(FirstDay(ym)), FirstDay(ym), DaysInMonth(ym.year, ym.month), today);
  }

  /** The page's state: the month shown, the image list and the loading flag. */
  class MonthCalendarPage {
    var shown: YearMonth
    var images: seq<DailyImage>
    var loading: bool

    constructor (current: YearMonth)
      ensures shown == current && images == [] && loading
    {
      shown := current;
      images := [];
      loading := true;
    }

    /** `loadImages`: the fetched list (`[]` when absent); a failed fetch keeps the old one. */
    method LoadImages(response: Fetch<seq<DailyImage>>)
      modifies this
      ensures images == (if response.Fetched? then OrEmpty(response.field) else old(images))
      ensures !loading && shown == old(shown)
    {
      if response.Fetched? {
        images := OrEmpty(response.field);
      }
      loading := false;
    }

    /**
     * The navigation buttons: move by `direction`, unless that passes the current month. A move
     * changes the month shown, which reloads the images (`reload` is that fetch).
     */
    method Navigate(direction: int, current: YearMonth, reload: Fetch<seq<DailyImage>>)
      modifies this
      ensures shown == NavigateMonth(old(shown), direction, current)
      ensures !Later(old(shown), current) ==> !Later(shown, current)
      ensures Later(AddMonths(old(shown), direction), current) ==> images == old(images) && loading == old(loading)
      ensures !Later(AddMonths(old(shown), direction), current) ==>
                images == (if reload.Fetched? then OrEmpty(reload.field) else old(images)) && !loading
    {
      var newDate := AddMonths(shown, direction);
      if newDate.year > current.year || (newDate.year == current.year && newDate.month > current.month) {
        return;
      }
      shown := newDate;
      LoadImages(reload);
    }
  }
}
