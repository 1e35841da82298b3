/**
 * The video editor page (frontend/src/pages/video/Video.tsx): the images of a date range, the
 * selection among them, the automatic selection of the whole range, and the length of the
 * video in frames. Dates are ISO `YYYY-MM-DD` strings, compared in text order, which is the
 * order the page's `new Date(...)` comparisons give them.
 */
module VideoEditor {
  import opened Wrappers
  import opened Text
  import opened Types
  import opened Lists
  import opened Sets

  /** Frames per second of the player. */
  const Fps: int := 30
  /** The range of the per-image duration slider, in seconds. */
  const MinImageDuration: int := 3
  const MaxImageDuration: int := 10

  /** `imgDate >= start && imgDate <= end`: both ends inclusive. */
  predicate InRange(img: DailyImage, startDate: string, endDate: string) {
    LexLe(startDate, img.date) && LexLe(img.date, endDate)
  }

  /** The filter of `getFilteredImages`: in range and selected. */
  predicate InRangeAndSelected(img: DailyImage, startDate: string, endDate: string, selected: set<string>) {
    InRange(img, startDate, endDate) && img.date in selected
  }

  /** The comparator of both lists: the older image may come first. */
  function OldestFirst(): (DailyImage, DailyImage) -> bool {
    (a: DailyImage, b: DailyImage) => LexLe(a.date, b.date)
  }

  lemma OldestFirstIsTotalPreorder()
    ensures TotalPreorder(OldestFirst())
  {
    var le := OldestFirst();
    forall a, b
      ensures le(a, b) || le(b, a)
    {
      LexLeTotal(a.date, b.date);
    }
    forall a, b, c | le(a, b) && le(b, c)
      ensures le(a, c)
    {
      LexLeTransitive(a.date, b.date, c.date);
    }
  }

  /** `getDateRangeImages` */
  function GetDateRangeImages(images: seq<DailyImage>, startDate: string, endDate: string): (r: seq<DailyImage>)
    ensures forall x :: x in r <==> x in images && InRange(x, startDate, endDate)
    ensures forall x :: multiset(r)[x] == if InRange(x, startDate, endDate) then multiset(images)[x] else 0
  {
    var ranged := Filter(images, (img: DailyImage) => InRange(img, startDate, endDate));
    FilterCounts(images, (img: DailyImage) => InRange(img, startDate, endDate));
    SortSameElements(ranged, OldestFirst());
    Sort(ranged, OldestFirst())
  }

  /** `getFilteredImages` */
  function GetFilteredImages(images: seq<DailyImage>, startDate: string, endDate: string, selected: set<string>): (r: seq<DailyImage>)
    ensures forall x :: x in r <==> x in images && InRange(x, startDate, endDate) && x.date in selected
    ensures forall x :: multiset(r)[x] ==
                          if InRange(x, startDate, endDate) && x.date in selected then multiset(images)[x] else 0
  {
    var chosen := Filter(images, (img: DailyImage) => InRangeAndSelected(img, startDate, endDate, selected));
    FilterCounts(images, (img: DailyImage) => InRangeAndSelected(img, startDate, endDate, selected));
    SortSameElements(chosen, OldestFirst());
    Sort(chosen, OldestFirst())
  }

  /** Sorting oldest first keeps the images and puts earlier dates before later ones. */
  lemma OldestFirstSorted(images: seq<DailyImage>)
    ensures forall x :: x in Sort(images, OldestFirst()) <==> x in images
    ensures forall i, j :: 0 <= i < j < |Sort(images, OldestFirst())| ==>
              LexLe(Sort(images, OldestFirst())[i].date, Sort(images, OldestFirst())[j].date)
  {
    SortSameElements(images, OldestFirst());
    OldestFirstIsTotalPreorder();
    SortSorted(images, OldestFirst());
  }

  /**
   * The range list holds exactly the images dated within the range, each as often as in
   * `images`, oldest first.
   */
  lemma DateRangeSpec(images: seq<DailyImage>, startDate: string, endDate: string)
    ensures forall x :: x in GetDateRangeImages(images, startDate, endDate) <==>
                          x in images && InRange(x, startDate, endDate)
    ensures forall x :: multiset(GetDateRangeImages(images, startDate, endDate))[x] ==
                          if InRange(x, startDate, endDate) then multiset(images)[x] else 0
    ensures forall i, j :: 0 <= i < j < |GetDateRangeImages(images, startDate, endDate)| ==>
              LexLe(GetDateRangeImages(images, startDate, endDate)[i].date,
                    GetDateRangeImages(images, startDate, endDate)[j].date)
  {
    OldestFirstSorted(Filter(images, (img: DailyImage) => InRange(img, startDate, endDate)));
  }

  /**
   * The filtered list is the range list with the unselected dates taken out: every selected
   * image occurs as often as in the range list, every other not at all. It is oldest first too.
   */
  lemma FilteredWithinRange(images: seq<DailyImage>, startDate: string, endDate: string, selected: set<string>)
    ensures multiset(GetFilteredImages(images, startDate, endDate, selected)) <=
            multiset(GetDateRangeImages(images, startDate, endDate))
    ensures forall x :: multiset(GetFilteredImages(images, startDate, endDate, selected))[x] ==
                          if x.date in selected then multiset(GetDateRangeImages(images, startDate, endDate))[x] else 0
    ensures forall x :: x in GetFilteredImages(images, startDate, endDate, selected) ==> x.date in selected
    ensures forall i, j :: 0 <= i < j < |GetFilteredImages(images, startDate, endDate, selected)| ==>
              LexLe(GetFilteredImages(images, startDate, endDate, selected)[i].date,
                    GetFilteredImages(images, startDate, endDate, selected)[j].date)
  {
    var inRange := (img: DailyImage) => InRange(img, startDate, endDate);
    var isSelected := (img: DailyImage) => img.date in selected;
    var both := (img: DailyImage) => InRangeAndSelected(img, startDate, endDate, selected);
    FilterTwice(images, inRange, isSelected, both);
    var ranged := Filter(images, inRange);
    var filtered := Filter(images, both);
    assert filtered == Filter(ranged, isSelected);
    assert multiset(filtered) <= multiset(ranged);
    OldestFirstSorted(filtered);
  }

  /** The auto-select effect: the dates of all images in the range. */
  function AutoSelect(images: seq<DailyImage>, startDate: string, endDate: string): (selected: set<string>)
    ensures forall d :: d in selected <==> exists img :: img in images && InRange(img, startDate, endDate) && img.date == d
  {
    set img | img in images && InRange(img, startDate, endDate) :: img.date
  }

  /** Right after the auto-select effect the filtered list is the whole range list. */
  lemma AutoSelectShowsRange(images: seq<DailyImage>, startDate: string, endDate: string)
    ensures GetFilteredImages(images, startDate, endDate, AutoSelect(images, startDate, endDate)) ==
            GetDateRangeImages(images, startDate, endDate)
  {
    var selected := AutoSelect(images, startDate, endDate);
    var inRange := (img: DailyImage) => InRange(img, startDate, endDate);
    var both := (img: DailyImage) => InRangeAndSelected(img, startDate, endDate, selected);
    forall i | 0 <= i < |images|
      ensures both(images[i]) == inRange(images[i])
    {
      if inRange(images[i]) {
        assert images[i] in images;
      }
    }
    FilterCongruent(images, both, inRange);
  }

  /** A range whose start is after its end selects nothing and shows nothing. */
  lemma ReversedRangeEmpty(images: seq<DailyImage>, startDate: string, endDate: string, selected: set<string>)
    requires !LexLe(startDate, endDate)
    ensures GetDateRangeImages(images, startDate, endDate) == []
    ensures GetFilteredImages(images, startDate, endDate, selected) == []
    ensures AutoSelect(images, startDate, endDate) == {}
  {
    forall img: DailyImage
      ensures !InRange(img, startDate, endDate)
    {
      if InRange(img, startDate, endDate) {
        LexLeTransitive(startDate, img.date, endDate);
      }
    }
    FilterNone(images, (img: DailyImage) => InRange(img, startDate, endDate));
    FilterNone(images, (img: DailyImage) => InRangeAndSelected(img, startDate, endDate, selected));
  }

  /**
   * `durationInFrames`: `n` images of `imageDuration` seconds each at 30 frames per second.
   * With a slider value, each image gets 90 to 300 frames, so the video lasts between `90 n`
   * and `300 n` frames, and some frames as soon as there is an image.
   */
  function DurationInFrames(n: nat, imageDuration: int): (frames: int)
    ensures MinImageDuration <= imageDuration <= MaxImageDuration ==> 90 * n <= frames <= 300 * n
    ensures MinImageDuration <= imageDuration <= MaxImageDuration && n > 0 ==> frames > 0
  {
    assert n * (Fps * imageDuration) == 30 * (n * imageDuration);
    if MinImageDuration <= imageDuration <= MaxImageDuration then
      assert n * MinImageDuration <= n * imageDuration <= n * MaxImageDuration;
      n * (Fps * imageDuration)
    else
      n * (Fps * imageDuration)
  }

  /** The page's state. */
  class VideoEditorPage {
    var images: seq<DailyImage>
    var startDate: string
    var endDate: string
    var selected: set<string>
    var imageDuration: int

    predicate Valid()
      reads this
    {
      MinImageDuration <= imageDuration <= MaxImageDuration
    }

    /** A month ago to today, three seconds per image, nothing loaded yet. */
    constructor (monthAgo: string, today: string)
      ensures images == [] && startDate == monthAgo && endDate == today && selected == {}
      ensures imageDuration == 3 && Valid()
    {
      images := [];
      startDate := monthAgo;
      endDate := today;
      selected := {};
      imageDuration := 3;
    }

    /** The auto-select effect, run whenever the images or the dates change. */
    method SyncSelection()
      modifies this
      ensures selected == AutoSelect(images, startDate, endDate)
      ensures images == old(images) && startDate == old(startDate) && endDate == old(endDate)
      ensures imageDuration == old(imageDuration)
    {
      selected := AutoSelect(images, startDate, endDate);
    }

    /** `loadImages`, then the effect; a failed fetch keeps the old list. */
    method LoadImages(response: Fetch<seq<DailyImage>>)
      modifies this
      ensures images == (if response.Fetched? then OrEmpty(response.field) else old(images))
      ensures selected == AutoSelect(images, startDate, endDate)
      ensures startDate == old(startDate) && endDate == old(endDate) && imageDuration == old(imageDuration)
    {
      if response.Fetched? {
        images := OrEmpty(response.field);
      }
      SyncSelection();
    }

    /** A new start date, then the effect. */
    method SetStartDate(date: string)
      modifies this
      ensures startDate == date && selected == AutoSelect(images, startDate, endDate)
      ensures images == old(images) && endDate == old(endDate) && imageDuration == old(imageDuration)
    {
      startDate := date;
      SyncSelection();
    }

    /** A new end date, then the effect. */
    method SetEndDate(date: string)
      modifies this
      ensures endDate == date && selected == AutoSelect(images, startDate, endDate)
      ensures images == old(images) && startDate == old(startDate) && imageDuration == old(imageDuration)
    {
      endDate := date;
      SyncSelection();
    }

    /** `toggleImageSelection`: flips only `date`. */
    method ToggleImageSelection(date: string)
      modifies this
      ensures selected == Toggle(old(selected), date)
      ensures images == old(images) && startDate == old(startDate) && endDate == old(endDate)
      ensures imageDuration == old(imageDuration)
    {
      var newSelected := selected;
      if date in newSelected {
        newSelected := newSelected - {date};
      } else {
        newSelected := newSelected + {date};
      }
      selected := newSelected;
    }

    /** The duration slider, whose values are 3 to 10. */
    method SetImageDuration(seconds: int)
      requires MinImageDuration <= seconds <= MaxImageDuration
      modifies this
      ensures imageDuration == seconds && Valid()
      ensures images == old(images) && startDate == old(startDate) && endDate == old(endDate)
      ensures selected == old(selected)
    {
      imageDuration := seconds;
    }

    /** The player's `durationInFrames` for the current selection. */
    method PlayerDuration() returns (frames: int)
      ensures frames == DurationInFrames(|GetFilteredImages(images, startDate, endDate, selected)|, imageDuration)
      ensures Valid() ==> frames >= 90 * |GetFilteredImages(images, startDate, endDate, selected)|
    {
      var filtered := GetFilteredImages(images, startDate, endDate, selected);
      frames := |filtered| * (Fps * imageDuration);
    }
  }
}
