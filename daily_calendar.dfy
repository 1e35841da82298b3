/**
 * The continuous photo calendar (frontend/src/pages/images/Images.tsx): a Monday-anchored grid
 * of whole weeks going back from the current one, the day list of the mobile layout, the
 * past/today/future classification of a cell, the image shown in a cell and the optimistic
 * update that puts a freshly uploaded photo on today's cell. Days are ordinals (`Calendar.Day`);
 * "today" is a parameter, and so are the fetch results.
 */
module DailyCalendar {
  import opened Wrappers
  import opened Types
  import opened Lists
  import opened Calendar

  /** `currentDay === 0 ? -6 : 1 - currentDay`: the offset from a weekday back to its Monday. */
  function MondayOffset(weekday: int): (offset: int)
    requires 0 <= weekday < 7
    ensures -6 <= offset <= 0
  {
    if weekday == 0 then -6 else 1 - weekday
  }

  /** The Monday of the week holding `today`: at most six days back, and a Monday. */
  function StartDate(today: Day): (start: Day)
    ensures today - 6 <= start <= today
    ensures Weekday(start) == 1
  {
    today + MondayOffset(Weekday(today))
  }

  /** Entry `k` of the grid: week `k / 7` back from the start, day `k % 7` of that week. */
  function ContinuousDay(start: Day, k: nat): Day {
    start - 7 * (k / 7) + k % 7
  }

  /**
   * `getContinuousDays`: `weeksToShow` rows of seven days, starting with the current week
   * and going back one week per row.
   */
  method GetContinuousDays(today: Day, weeksToShow: nat) returns (days: seq<Day>)
    ensures |days| == weeksToShow * 7
    ensures forall k :: 0 <= k < |days| ==> days[k] == ContinuousDay(StartDate(today), k)
  {
    var startDate := StartDate(today);
    days := [];
    for week := 0 to weeksToShow
      invariant |days| == week * 7
      invariant forall k :: 0 <= k < |days| ==> days[k] == ContinuousDay(startDate, k)
    {
      for day := 0 to 7
        invariant |days| == week * 7 + day
        invariant forall k :: 0 <= k < |days| ==> days[k] == ContinuousDay(startDate, k)
      {
        GridPosition(week, day);
        days := days + [startDate - week * 7 + day];
      }
    }
  }

  lemma GridPosition(week: nat, day: nat)
    requires day < 7
    ensures (week * 7 + day) / 7 == week && (week * 7 + day) % 7 == day
  {
  }

  /**
   * Every row runs Monday to Sunday on consecutive days, and each row is the week before
   * the row above it.
   */
  lemma {:induction false} GridRows(today: Day, k: nat)
    ensures Weekday(ContinuousDay(StartDate(today), k)) == (k % 7 + 1) % 7
    ensures k % 7 < 6 ==> ContinuousDay(StartDate(today), k + 1) == ContinuousDay(StartDate(today), k) + 1
    ensures ContinuousDay(StartDate(today), k + 7) == ContinuousDay(StartDate(today), k) - 7
  {
    var start := StartDate(today);
    var q, r := k / 7, k % 7;
    assert k == 7 * q + r;
    if r < 6 {
      GridPosition(q, r + 1);
    }
    GridPosition(q + 1, r);
    assert (start + 4) % 7 == 1;
    assert Weekday(start - 7 * q + r) == (start + 4 - 7 * q + r) % 7;
  }

  /** Entry `i` of the mobile list: `i` days before today. */
  method GetMobileDays(today: Day, weeksToShow: nat) returns (days: seq<Day>)
    ensures |days| == weeksToShow * 7
    ensures forall i :: 0 <= i < |days| ==> days[i] == today - i
    ensures forall i, j :: 0 <= i < j < |days| ==> days[i] > days[j]
  {
    days := [];
    var i := 0;
    while i < weeksToShow * 7
      invariant i <= weeksToShow * 7 && |days| == i
      invariant forall k :: 0 <= k < i ==> days[k] == today - k
    {
      days := days + [today - i];
      i := i + 1;
    }
  }

  /** Comparisons at midnight: a cell's day against today (the future test is `Calendar.IsDayInFuture`). */
  predicate IsDayInPast(date: Day, today: Day)
    ensures IsDayInPast(date, today) <==> CivilBefore(CivilFromDays(date), CivilFromDays(today))
  {
    DayOrderIsCalendarOrder(date, today);
    date < today
  }

  predicate IsToday(date: Day, today: Day)
    ensures IsToday(date, today) <==> CivilFromDays(date) == CivilFromDays(today)
  {
    date == today
  }

  /** Every day is exactly one of past, today and future. */
  lemma Trichotomy(date: Day, today: Day)
    ensures IsDayInPast(date, today) || IsToday(date, today) || IsDayInFuture(date, today)
    ensures !(IsDayInPast(date, today) && IsToday(date, today))
    ensures !(IsDayInPast(date, today) && IsDayInFuture(date, today))
    ensures !(IsToday(date, today) && IsDayInFuture(date, today))
  {
  }

  /** Index `i` holds the first image dated `date`. */
  predicate FirstDated(images: seq<DailyImage>, date: string, i: int) {
    0 <= i < |images| && images[i].date == date && forall j :: 0 <= j < i ==> images[j].date != date
  }

  /** `images.find(img => img.date === date)`: the first image of that date. */
  function FindByDate(images: seq<DailyImage>, date: string): (r: Option<DailyImage>)
    ensures r.None? <==> forall i :: 0 <= i < |images| ==> images[i].date != date
    ensures r.Some? ==> r.value in images && r.value.date == date
    ensures forall i :: FirstDated(images, date, i) ==> r == Some(images[i])
  {
    if images == [] then None
    else if images[0].date == date then Some(images[0])
    else
      var r := FindByDate(images[1..], date);
      FirstDatedInTail(images, date);
      assert r.Some? ==> r.value in images;
      r
  }

  lemma FirstDatedInTail(images: seq<DailyImage>, date: string)
    requires images != [] && images[0].date != date
    ensures forall i :: FirstDated(images, date, i) ==> FirstDated(images[1..], date, i - 1)
  {
    forall i | FirstDated(images, date, i)
      ensures FirstDated(images[1..], date, i - 1)
    {
      assert i >= 1;
      forall j | 0 <= j < i - 1
        ensures images[1..][j].date != date
      {
        assert images[1..][j] == images[j + 1];
      }
    }
  }

  /** `image?.url || null`: the URL of the cell's image; an empty URL counts as none. */
  function UrlOf(image: Option<DailyImage>): (url: Option<string>)
    ensures url.Some? <==> image.Some? && image.value.url != ""
    ensures url.Some? ==> url.value == image.value.url
  {
    if image.Some? && image.value.url != "" then Some(image.value.url) else None
  }

  /**
   * `getImageForDate`: the URL of the first image dated with the cell's ISO date, when that
   * URL is not empty.
   */
  function GetImageForDate(images: seq<DailyImage>, date: Day): (url: Option<string>)
    ensures (forall i :: 0 <= i < |images| ==> images[i].date != IsoDate(date)) ==> url.None?
    ensures url.Some? <==> exists i :: FirstDated(images, IsoDate(date), i) && images[i].url != ""
    ensures forall i :: FirstDated(images, IsoDate(date), i) && images[i].url != "" ==> url == Some(images[i].url)
  {
    var found := FindByDate(images, IsoDate(date));
    if found.Some? then
      FindByDateFirst(images, IsoDate(date));
      UrlOf(found)
    else None
  }

  /** The image found is the first one with that date. */
  lemma {:induction false} FindByDateFirst(images: seq<DailyImage>, date: string)
    requires FindByDate(images, date).Some?
    ensures exists i :: FirstDated(images, date, i) && images[i] == FindByDate(images, date).value
  {
    if images[0].date == date {
      assert FirstDated(images, date, 0);
    } else {
      FindByDateFirst(images[1..], date);
      var i :| FirstDated(images[1..], date, i) && images[1..][i] == FindByDate(images[1..], date).value;
      assert images[i + 1] == FindByDate(images, date).value;
      assert FirstDated(images, date, i + 1);
    }
  }

  /**
   * `isImageLoading`: a spinner while the list loads, except on future days; so while the list
   * loads exactly the past days and today show one, and afterwards none does.
   */
  predicate IsImageLoading(imagesLoading: bool, date: Day, today: Day)
    ensures IsImageLoading(imagesLoading, date, today) <==>
              imagesLoading && (IsDayInPast(date, today) || IsToday(date, today))
  {
    imagesLoading && !IsDayInFuture(date, today)
  }

  predicate DatedOtherThan(img: DailyImage, today: string) {
    img.date != today
  }

  /** The filter of the optimistic update, as a function value. */
  function OtherDays(today: string): DailyImage -> bool {
    (img: DailyImage) => DatedOtherThan(img, today)
  }

  /** The optimistic `setImages` of `handleImageUpload`: today's entries replaced by one, in front. */
  function Optimistic(prev: seq<DailyImage>, today: string, localUrl: string): (r: seq<DailyImage>)
    ensures |r| >= 1 && r[0] == DailyImage(today, localUrl)
    ensures forall i :: 1 <= i < |r| ==> r[i].date != today
    ensures forall x :: x in r[1..] <==> x in prev && x.date != today
  {
    [DailyImage(today, localUrl)] + Filter(prev, OtherDays(today))
  }

  /**
   * Behind the new photo, the old entries of other days keep their original order, each as
   * often as before: the tail is `prev` read at the increasing positions of the other days.
   */
  lemma OptimisticKeepsOthers(prev: seq<DailyImage>, today: string, localUrl: string)
    ensures forall x :: multiset(Optimistic(prev, today, localUrl)[1..])[x] ==
                          if x.date != today then multiset(prev)[x] else 0
    ensures |Optimistic(prev, today, localUrl)| == 1 + |Positions(prev, OtherDays(today), 0)|
    ensures forall k :: 1 <= k < |Optimistic(prev, today, localUrl)| ==>
              Optimistic(prev, today, localUrl)[k] == prev[Positions(prev, OtherDays(today), 0)[k - 1]]
  {
    var r := Optimistic(prev, today, localUrl);
    assert r[1..] == Filter(prev, OtherDays(today));
    FilterCounts(prev, OtherDays(today));
    FilterInOrder(prev, OtherDays(today));
  }

  lemma {:induction false} FindSkipsOtherDates(images: seq<DailyImage>, today: string, date: string)
    requires date != today
    ensures FindByDate(Filter(images, OtherDays(today)), date) == FindByDate(images, date)
  {
    if images != [] {
      var p := OtherDays(today);
      var rest := Filter(images[1..], p);
      FindSkipsOtherDates(images[1..], today, date);
      if images[0].date == today {
        assert Filter(images, p) == rest;
      } else {
        var f := Filter(images, p);
        assert f == [images[0]] + rest;
        assert f[1..] == rest;
      }
    }
  }

  /**
   * After the optimistic update today's cell shows the local photo, and every other cell
   * shows the photo it showed before.
   */
  lemma OptimisticShowsUpload(prev: seq<DailyImage>, today: Day, localUrl: string, other: Day)
    requires localUrl != "" && IsoDate(other) != IsoDate(today)
    ensures GetImageForDate(Optimistic(prev, IsoDate(today), localUrl), today) == Some(localUrl)
    ensures GetImageForDate(Optimistic(prev, IsoDate(today), localUrl), other) == GetImageForDate(prev, other)
  {
    var r := Optimistic(prev, IsoDate(today), localUrl);
    assert r[1..] == Filter(prev, OtherDays(IsoDate(today)));
    FindSkipsOtherDates(prev, IsoDate(today), IsoDate(other));
  }

  /** The page's state. */
  class DailyCalendarPage {
    var images: seq<DailyImage>
    var imagesLoading: bool
    var weeksToShow: nat
    var uploading: bool

    constructor ()
      ensures images == [] && imagesLoading && weeksToShow == 4 && !uploading
    {
      images := [];
      imagesLoading := true;
      weeksToShow := 4;
      uploading := false;
    }

    /** `loadImages`: the fetched list (`[]` when absent); a failed fetch keeps the old one. */
    method LoadImages(response: Fetch<seq<DailyImage>>)
      modifies this
      ensures images == (if response.Fetched? then OrEmpty(response.field) else old(images))
      ensures !imagesLoading && weeksToShow == old(weeksToShow) && uploading == old(uploading)
    {
      if response.Fetched? {
        images := OrEmpty(response.field);
      }
      imagesLoading := false;
    }

    /**
     * `handleImageUpload` for a photo taken on `today`: the optimistic update, then the upload;
     * when the upload is accepted the list is reloaded from the server.
     */
    method HandleImageUpload(today: Day, localUrl: string, uploadAccepted: bool, reload: Fetch<seq<DailyImage>>)
      modifies this
      ensures uploadAccepted && reload.Fetched? ==> images == OrEmpty(reload.field)
      ensures !(uploadAccepted && reload.Fetched?) ==> images == Optimistic(old(images), IsoDate(today), localUrl)
      ensures !uploading && weeksToShow == old(weeksToShow)
      ensures imagesLoading == (old(imagesLoading) && !uploadAccepted)
    {
      uploading := true;
      images := Optimistic(images, IsoDate(today), localUrl);
      if uploadAccepted {
        LoadImages(reload);
      }
      uploading := false;
    }

    /** `loadMoreWeeks`: four more weeks. */
    method LoadMoreWeeks()
      modifies this
      ensures weeksToShow == old(weeksToShow) + 4
      ensures images == old(images) && imagesLoading == old(imagesLoading) && uploading == old(uploading)
    {
      weeksToShow := weeksToShow + 4;
    }
  }
}
