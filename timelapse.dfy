/**
 * The timelapse composition (frontend/src/remotion/TimelapseVideo.tsx): which image a frame
 * shows, and the Turkish date label drawn over it.
 */
module Timelapse {
  import opened Wrappers
  import opened Text
  import opened Types
  import opened Calendar
  import VideoEditor

  /** `fps * imageDuration` */
  function FramesPerImage(fps: int, imageDuration: int): int {
    fps * imageDuration
  }

  /**
   * `images[Math.floor(frame / framesPerImage)]`, None where that is `undefined` and nothing is
   * drawn. A zero divisor gives `NaN` or `Infinity`, never an index; a negative one gives a
   * negative index except at frame 0, where `-0` reads element 0.
   */
  function CurrentImage(images: seq<DailyImage>, frame: nat, framesPerImage: int): (r: Option<DailyImage>)
    ensures r.Some? ==> r.value in images
    ensures framesPerImage > 0 ==> (r.Some? <==> frame / framesPerImage < |images|)
    ensures framesPerImage > 0 && r.Some? ==> r.value == images[frame / framesPerImage]
  {
    if framesPerImage > 0 then
      var index := frame / framesPerImage;
      if index < |images| then Some(images[index]) else None
    else if framesPerImage < 0 && frame == 0 && |images| > 0 then Some(images[0])
    else None
  }

  lemma MulLessCancel(a: int, b: int, k: int)
    requires k > 0 && a * k < b * k
    ensures a < b
  {
  }

  lemma DivisionWindow(frame: nat, i: nat, fpi: int)
    requires fpi > 0 && i * fpi <= frame < (i + 1) * fpi
    ensures frame / fpi == i
  {
    var q := frame / fpi;
    assert q * fpi <= frame < (q + 1) * fpi;
    MulLessCancel(q, i + 1, fpi);
    MulLessCancel(i, q + 1, fpi);
  }

  /** Frames `i * fpi` up to but excluding `(i + 1) * fpi` show image `i`. */
  lemma FrameWindow(images: seq<DailyImage>, i: nat, frame: nat, framesPerImage: int)
    requires framesPerImage > 0 && i < |images|
    requires i * framesPerImage <= frame < (i + 1) * framesPerImage
    ensures CurrentImage(images, frame, framesPerImage) == Some(images[i])
  {
    DivisionWindow(frame, i, framesPerImage);
  }

  /** From frame `|images| * fpi` on, nothing is drawn. */
  lemma PastTheEnd(images: seq<DailyImage>, frame: nat, framesPerImage: int)
    requires framesPerImage > 0 && frame >= |images| * framesPerImage
    ensures CurrentImage(images, frame, framesPerImage) == None
  {
    var q := frame / framesPerImage;
    assert q * framesPerImage <= frame < (q + 1) * framesPerImage;
    MulLessCancel(|images|, q + 1, framesPerImage);
  }

  /** A later frame never shows an earlier image. */
  lemma IndexMonotone(f1: nat, f2: nat, framesPerImage: int)
    requires framesPerImage > 0 && f1 <= f2
    ensures f1 / framesPerImage <= f2 / framesPerImage
  {
    var q1, q2 := f1 / framesPerImage, f2 / framesPerImage;
    assert q1 * framesPerImage <= f1;
    assert f2 < (q2 + 1) * framesPerImage;
    MulLessCancel(q1, q2 + 1, framesPerImage);
  }

  /**
   * With the editor's duration of `n * 30 * d` frames and the player's 30 frames per second,
   * every frame of the video shows an image.
   */
  lemma EveryFrameShown(images: seq<DailyImage>, imageDuration: int, frame: nat)
    requires imageDuration > 0
    requires frame < VideoEditor.DurationInFrames(|images|, imageDuration)
    ensures CurrentImage(images, frame, FramesPerImage(VideoEditor.Fps, imageDuration)).Some?
  {
    var fpi := FramesPerImage(VideoEditor.Fps, imageDuration);
    assert VideoEditor.DurationInFrames(|images|, imageDuration) == |images| * fpi;
    var q := frame / fpi;
    assert q * fpi <= frame;
    MulLessCancel(q, |images|, fpi);
  }

  /** The month names of the Turkish label, January first. */
  const TurkishMonths: seq<string> :=
    ["Ocak", "Şubat", "Mart", "Nisan", "Mayıs", "Haziran",
     "Temmuz", "Ağustos", "Eylül", "Ekim", "Kasım", "Aralık"]

  lemma TurkishMonthsDistinct()
    ensures |TurkishMonths| == 12
    ensures forall i, j :: 0 <= i < j < 12 ==> TurkishMonths[i] != TurkishMonths[j]
    ensures forall i :: 0 <= i < 12 ==> ' ' !in TurkishMonths[i]
  {
  }

  /** `${date.getDate()} ${months[date.getMonth()]} ${date.getFullYear()}` */
  function TurkishLabel(c: Civil): string
    requires ValidCivil(c)
  {
    NatToString(c.day) + " " + TurkishMonths[c.month - 1] + " " + IntToString(c.year)
  }

  /** The label reads back as day, month name and year, in that order. */
  lemma TurkishLabelParts(c: Civil)
    requires ValidCivil(c)
    ensures Split(TurkishLabel(c), ' ') == [NatToString(c.day), TurkishMonths[c.month - 1], IntToString(c.year)]
  {
    TurkishMonthsDistinct();
    var parts := [NatToString(c.day), TurkishMonths[c.month - 1], IntToString(c.year)];
    assert Join(parts, ' ') == TurkishLabel(c) by {
      assert parts[1..][1..] == [IntToString(c.year)];
      assert Join(parts[1..], ' ') == TurkishMonths[c.month - 1] + " " + IntToString(c.year);
      assert Join(parts, ' ') == NatToString(c.day) + " " + Join(parts[1..], ' ');
    }
    forall i | 0 <= i < 3
      ensures ' ' !in parts[i]
    {
      if i == 2 && c.year < 0 {
        assert IntToString(c.year)[1..] == NatToString(-c.year);
      }
    }
    SplitJoin(parts, ' ');
  }

  /** Different dates get different labels. */
  lemma TurkishLabelInjective(c1: Civil, c2: Civil)
    requires ValidCivil(c1) && ValidCivil(c2)
    requires TurkishLabel(c1) == TurkishLabel(c2)
    ensures c1 == c2
  {
    TurkishLabelParts(c1);
    TurkishLabelParts(c2);
    NatToStringInjective(c1.day, c2.day);
    IntToStringInjective(c1.year, c2.year);
    TurkishMonthsDistinct();
  }

  /** The label of the day an image is dated with: different days, different labels. */
  function FormatDateTr(date: Day): string {
    TurkishLabel(CivilFromDays(date))
  }

  lemma FormatDateTrInjective(d1: Day, d2: Day)
    requires FormatDateTr(d1) == FormatDateTr(d2)
    ensures d1 == d2
  {
    TurkishLabelInjective(CivilFromDays(d1), CivilFromDays(d2));
  }

  /** What the label reads for text that is not a date: `${NaN} ${undefined} ${NaN}`. */
  const InvalidDateLabel: string := "NaN undefined NaN"

  /**
   * The Turkish `formatDate(dateStr)`: `new Date(dateStr)`, then the label of that day. The
   * invalid-date label is given exactly to the texts that name no day, since a day's label
   * starts with a digit.
   */
  function FormatDate(dateStr: string): (text: string)
    ensures text == InvalidDateLabel <==> ParseIsoDate(dateStr).None?
  {
    match ParseIsoDate(dateStr)
    case Some(z) =>
      var c := CivilFromDays(z);
      assert FormatDateTr(z)[0] == NatToString(c.day)[0];
      FormatDateTr(z)
    case None => InvalidDateLabel
  }

  /**
   * The label drawn over a frame: with a positive frame count per image, there is one exactly
   * while an image is drawn, and it is the label of that image's date.
   */
  function CurrentLabel(images: seq<DailyImage>, frame: nat, framesPerImage: int): (text: Option<string>)
    ensures text.Some? <==> CurrentImage(images, frame, framesPerImage).Some?
    ensures framesPerImage > 0 ==> (text.Some? <==> frame / framesPerImage < |images|)
    ensures framesPerImage > 0 && text.Some? ==> text.value == FormatDate(images[frame / framesPerImage].date)
  {
    match CurrentImage(images, frame, framesPerImage)
    case Some(img) => Some(FormatDate(img.date))
    case None => None
  }

  /**
   * The frames of image `i`, dated with the text of day `z`, carry the label of `z`: the label
   * belongs to the image drawn beneath it.
   */
  lemma FrameLabel(images: seq<DailyImage>, i: nat, frame: nat, framesPerImage: int, z: Day)
    requires framesPerImage > 0 && i < |images|
    requires i * framesPerImage <= frame < (i + 1) * framesPerImage
    requires images[i].date == IsoDate(z) && 0 <= CivilFromDays(z).year <= 9999
    ensures CurrentLabel(images, frame, framesPerImage) == Some(FormatDateTr(z))
  {
    FrameWindow(images, i, frame, framesPerImage);
    IsoDateRoundTrip(z);
  }

  /** Text that is not a date, such as an empty date, is labelled `NaN undefined NaN`. */
  lemma UndatedLabel(dateStr: string)
    requires |dateStr| != 10
    ensures FormatDate(dateStr) == InvalidDateLabel
  {
  }
}
