/**
  * The image processor: per-pixel differencing of a grayscale frame against a background
  * model, a strict "> 6" threshold, the share of active pixels, and an in-place background
  * update that moves every pixel one grey level towards the frame.
  *
  * Frames arrive already in grayscale. OpenCV's median blur, erosion and dilation are not
  * computed: they are the functions of a `Filters` value, of which `Sound` states what the
  * model relies on.
  */
module Image {
  import opened Wrappers
  import opened Utility

  /** An 8-bit grey level. */
  type Pixel = x: int | 0 <= x <= 255

  function Width(img: seq<seq<Pixel>>): nat {
    if |img| == 0 then 0 else |img[0]|
  }

  predicate HasShape(img: seq<seq<Pixel>>, h: nat, w: nat) {
    |img| == h && forall i :: 0 <= i < h ==> |img[i]| == w
  }

  /** A rectangular grayscale image, row by row. */
  type Image = img: seq<seq<Pixel>> | HasShape(img, |img|, Width(img))

  predicate SameShape(a: Image, b: Image) {
    |a| == |b| && Width(a) == Width(b)
  }

  predicate NonEmpty(img: Image) {
    |img| > 0 && Width(img) > 0
  }

  /** Every pixel is 0 or 255, as OpenCV's binary images are. */
  predicate IsMask(img: Image) {
    forall i, j :: 0 <= i < |img| && 0 <= j < |img[i]| ==> img[i][j] == 0 || img[i][j] == 255
  }

  predicate IsBlank(img: Image) {
    forall i, j :: 0 <= i < |img| && 0 <= j < |img[i]| ==> img[i][j] == 0
  }

  /** Every pixel lit in `a` is lit in `b`. */
  predicate LitWithin(a: Image, b: Image)
    requires SameShape(a, b)
  {
    forall i, j :: 0 <= i < |a| && 0 <= j < |a[i]| && a[i][j] != 0 ==> b[i][j] != 0
  }

  /** The OpenCV operations the pipeline calls: 3x3 median blur, erosion and dilation. */
  datatype Filters = Filters(medianBlur: Image -> Image, erode: Image -> Image, dilate: Image -> Image)

  /**
    * What the model relies on about the OpenCV operations: each keeps the image's shape and
    * maps a blank image to a blank one, and erosion and dilation map binary images to binary images.
    */
  ghost predicate Sound(f: Filters) {
    && (forall img {:trigger f.medianBlur(img)} :: SameShape(f.medianBlur(img), img))
    && (forall img {:trigger f.medianBlur(img)} :: IsBlank(img) ==> IsBlank(f.medianBlur(img)))
    && (forall img {:trigger f.erode(img)} :: SameShape(f.erode(img), img))
    && (forall img {:trigger f.erode(img)} :: IsBlank(img) ==> IsBlank(f.erode(img)))
    && (forall img {:trigger f.erode(img)} :: IsMask(img) ==> IsMask(f.erode(img)))
    && (forall img {:trigger f.dilate(img)} :: SameShape(f.dilate(img), img))
    && (forall img {:trigger f.dilate(img)} :: IsBlank(img) ==> IsBlank(f.dilate(img)))
    && (forall img {:trigger f.dilate(img)} :: IsMask(img) ==> IsMask(f.dilate(img)))
  }

  /** Erosion followed by dilation (an opening) lights no pixel its input did not light. */
  ghost predicate OpeningShrinks(f: Filters)
    requires Sound(f)
  {
    forall m {:trigger f.dilate(f.erode(m))} :: IsMask(m) ==> LitWithin(f.dilate(f.erode(m)), m)
  }

  function Dist(a: int, b: int): nat {
    if a < b then b - a else a - b
  }

  /** `cv2.absdiff`: the per-pixel absolute difference. */
  function AbsDiff(a: Image, b: Image): (d: Image)
    requires SameShape(a, b)
    ensures SameShape(d, a)
  {
    seq(|a|, i requires 0 <= i < |a| =>
      seq(Width(a), j requires 0 <= j < Width(a) => Dist(a[i][j], b[i][j]) as Pixel))
  }

  /** Grey levels above this one count as changed. */
  const ActivityThreshold: int := 6

  /** `cv2.compare(img, 6, CMP_GT)`: 255 where the pixel exceeds 6, else 0. */
  function Threshold(img: Image): (m: Image)
    ensures SameShape(m, img) && IsMask(m)
    ensures forall i, j :: 0 <= i < |img| && 0 <= j < Width(img) ==>
              (m[i][j] != 0 <==> img[i][j] > ActivityThreshold)
  {
    seq(|img|, i requires 0 <= i < |img| =>
      seq(Width(img), j requires 0 <= j < Width(img) => if img[i][j] > ActivityThreshold then 255 else 0))
  }

  /** The difference mask: blur, threshold, erode, dilate. */
  function DifferenceMask(background: Image, foreground: Image, f: Filters): (m: Image)
    requires Sound(f) && SameShape(background, foreground)
    ensures SameShape(m, background) && IsMask(m)
  {
    f.dilate(f.erode(Threshold(f.medianBlur(AbsDiff(background, foreground)))))
  }

  /** When the opening only removes pixels, a lit mask pixel had a blurred difference above 6. */
  lemma MaskPixelsAreAboveThreshold(background: Image, foreground: Image, f: Filters)
    requires Sound(f) && SameShape(background, foreground) && OpeningShrinks(f)
    ensures var blurred := f.medianBlur(AbsDiff(background, foreground));
      var m := DifferenceMask(background, foreground, f);
      forall i, j :: 0 <= i < |m| && 0 <= j < Width(m) && m[i][j] != 0 ==> blurred[i][j] > ActivityThreshold
  {
    var blurred := f.medianBlur(AbsDiff(background, foreground));
    var t := Threshold(blurred);
    var m := f.dilate(f.erode(t));
    assert LitWithin(m, t);
    forall i, j | 0 <= i < |m| && 0 <= j < Width(m) && m[i][j] != 0
      ensures blurred[i][j] > ActivityThreshold
    {
      assert t[i][j] != 0;
    }
  }

  /** `countNonZero` over one row. */
  function CountRow(row: seq<Pixel>): (n: nat)
    ensures n <= |row|
  {
    if row == [] then 0 else CountRow(row[..|row| - 1]) + (if row[|row| - 1] != 0 then 1 else 0)
  }

  /** `countNonZero` over an image whose rows have width `w`. */
  function CountNonZero(img: seq<seq<Pixel>>, w: nat): (n: nat)
    requires forall i :: 0 <= i < |img| ==> |img[i]| == w
    ensures n <= |img| * w
  {
    if img == [] then 0 else CountNonZero(img[..|img| - 1], w) + CountRow(img[|img| - 1])
  }

  /** A row counts zero exactly when none of its pixels is lit. */
  lemma {:induction false} BlankRowCountsZero(row: seq<Pixel>)
    ensures CountRow(row) == 0 <==> forall j :: 0 <= j < |row| ==> row[j] == 0
  {
    if row != [] {
      var init := row[..|row| - 1];
      BlankRowCountsZero(init);
      assert forall j :: 0 <= j < |init| ==> init[j] == row[j];
    }
  }

  /** A row counts its full length exactly when every one of its pixels is lit. */
  lemma {:induction false} FullRowCountsLength(row: seq<Pixel>)
    ensures CountRow(row) == |row| <==> forall j :: 0 <= j < |row| ==> row[j] != 0
  {
    if row != [] {
      var init := row[..|row| - 1];
      FullRowCountsLength(init);
      assert forall j :: 0 <= j < |init| ==> init[j] == row[j];
    }
  }

  /** An image counts zero exactly when none of its pixels is lit. */
  lemma {:induction false} BlankCountsZero(img: seq<seq<Pixel>>, w: nat)
    requires forall i :: 0 <= i < |img| ==> |img[i]| == w
    ensures CountNonZero(img, w) == 0
            <==> forall i, j :: 0 <= i < |img| && 0 <= j < w ==> img[i][j] == 0
  {
    if img != [] {
      var init := img[..|img| - 1];
      BlankCountsZero(init, w);
      BlankRowCountsZero(img[|img| - 1]);
      assert forall i :: 0 <= i < |init| ==> init[i] == img[i];
    }
  }

  /** An image counts all its height·width pixels exactly when every one of them is lit. */
  lemma {:induction false} FullCountsAll(img: seq<seq<Pixel>>, w: nat)
    requires forall i :: 0 <= i < |img| ==> |img[i]| == w
    ensures CountNonZero(img, w) == |img| * w
            <==> forall i, j :: 0 <= i < |img| && 0 <= j < w ==> img[i][j] != 0
  {
    if img != [] {
      var init := img[..|img| - 1];
      FullCountsAll(init, w);
      FullRowCountsLength(img[|img| - 1]);
      MaximalSum(CountNonZero(init, w), CountRow(img[|img| - 1]), |init| * w, w);
      AddRow(|init|, w);
      assert forall i :: 0 <= i < |init| ==> init[i] == img[i];
    }
  }

  /** Two counts below their maxima add up to the sum of the maxima only when both are at them. */
  lemma MaximalSum(a: nat, b: nat, ma: nat, mb: nat)
    requires a <= ma && b <= mb
    ensures a + b == ma + mb <==> a == ma && b == mb
  {}

  lemma AddRow(h: nat, w: nat)
    ensures (h + 1) * w == h * w + w
  {}

  /** `count * 100 / (height * width)`, a share of the frame in percent. */
  function Percentage(count: nat, height: nat, width: nat): (r: real)
    requires 0 < height && 0 < width && count <= height * width
    ensures 0.0 <= r <= 100.0
    ensures r == 0.0 <==> count == 0
    ensures r == 100.0 <==> count == height * width
  {
    var total := (height * width) as real;
    ShareOfTotal((count * 100) as real, 100.0 * total, total);
    (count * 100) as real / total
  }

  /** x / t as a share of 100 when 0 <= x <= 100 * t. */
  lemma ShareOfTotal(x: real, full: real, t: real)
    requires 0.0 < t && full == 100.0 * t && 0.0 <= x <= full
    ensures 0.0 <= x / t <= 100.0
    ensures x / t == 0.0 <==> x == 0.0
    ensures x / t == 100.0 <==> x == full
  {
    var q := x / t;
    assert q * t == x;
  }

  /** Seven lit pixels in a 10x10 mask are 7 percent of it. */
  lemma SevenOfHundred()
    ensures Percentage(7, 10, 10) == 7.0
  {
  }

  /** The value the processor returns for a frame, given the background before the call. */
  function ActivityOf(background: Image, foreground: Image, f: Filters): (r: real)
    requires Sound(f) && SameShape(background, foreground) && NonEmpty(background)
    ensures 0.0 <= r <= 100.0
    ensures var m := DifferenceMask(background, foreground, f);
      r == 0.0 <==> forall i, j :: 0 <= i < |m| && 0 <= j < Width(m) ==> m[i][j] == 0
    ensures var m := DifferenceMask(background, foreground, f);
      r == 100.0 <==> forall i, j :: 0 <= i < |m| && 0 <= j < Width(m) ==> m[i][j] != 0
  {
    var m := DifferenceMask(background, foreground, f);
    BlankCountsZero(m, Width(background));
    FullCountsAll(m, Width(background));
    Percentage(CountNonZero(m, Width(background)), |background|, Width(background))
  }

  /** One step of the background model: one grey level towards the frame, none when equal. */
  function StepToward(b: Pixel, f: Pixel): (r: Pixel)
    ensures Dist(r, f) == if b == f then 0 else Dist(b, f) - 1
    ensures (b <= r <= f) || (f <= r <= b)
  {
    if b < f then b + 1 else if b > f then b - 1 else b
  }

  /** numpy's uint8 arithmetic: results are taken modulo 256. */
  function Uint8(x: int): Pixel {
    x % 256
  }

  /** The source's update of one pixel: both masks from the old value, then `+= lt` and `-= gt` in uint8. */
  function StepAsWritten(b: Pixel, f: Pixel): Pixel {
    var lt := if b < f then 1 else 0;
    var gt := if b > f then 1 else 0;
    Uint8(Uint8(b + lt) - gt)
  }

  /** The masks only fire where there is room, so the uint8 update never wraps around. */
  lemma NoWraparound(b: Pixel, f: Pixel)
    ensures StepAsWritten(b, f) == StepToward(b, f)
  {
  }

  /** The background after one update against `foreground`. */
  function StepImage(background: Image, foreground: Image): (r: Image)
    requires SameShape(background, foreground)
    ensures SameShape(r, background)
  {
    seq(|background|, i requires 0 <= i < |background| =>
      seq(Width(background), j requires 0 <= j < Width(background) => StepToward(background[i][j], foreground[i][j])))
  }

  /** Two images of one shape that agree on every pixel are equal. */
  lemma {:induction false} ImagesEqual(a: Image, b: Image)
    requires SameShape(a, b)
    requires forall i, j :: 0 <= i < |a| && 0 <= j < Width(a) ==> a[i][j] == b[i][j]
    ensures a == b
  {
    forall i | 0 <= i < |a|
      ensures a[i] == b[i]
    {
      assert |a[i]| == Width(a) == |b[i]|;
    }
  }

  /** `n` updates of one pixel against the same grey level. */
  function StepsToward(b: Pixel, f: Pixel, n: nat): Pixel
    decreases n
  {
    if n == 0 then b else StepToward(StepsToward(b, f, n - 1), f)
  }

  /** On a static pixel the distance shrinks by exactly one per update until it is 0, then stays 0. */
  lemma {:induction false} StepsTowardDistance(b: Pixel, f: Pixel, n: nat)
    ensures Dist(StepsToward(b, f, n), f) == if Dist(b, f) <= n then 0 else Dist(b, f) - n
  {
    if n > 0 {
      StepsTowardDistance(b, f, n - 1);
    }
  }

  /** The background after `n` updates against the same frame. */
  function StaticScene(background: Image, foreground: Image, n: nat): (r: Image)
    requires SameShape(background, foreground)
    ensures SameShape(r, background)
    decreases n
  {
    if n == 0 then background else StepImage(StaticScene(background, foreground, n - 1), foreground)
  }

  lemma {:induction false} StaticSceneAt(background: Image, foreground: Image, n: nat, i: nat, j: nat)
    requires SameShape(background, foreground)
    requires i < |background| && j < Width(background)
    ensures StaticScene(background, foreground, n)[i][j] == StepsToward(background[i][j], foreground[i][j], n)
  {
    if n > 0 {
      StaticSceneAt(background, foreground, n - 1, i, j);
    }
  }

  /** On a static scene the background becomes the frame after at most 255 updates. */
  lemma StaticSceneConverges(background: Image, foreground: Image, n: nat)
    requires SameShape(background, foreground) && n >= 255
    ensures StaticScene(background, foreground, n) == foreground
  {
    var r := StaticScene(background, foreground, n);
    forall i, j | 0 <= i < |r| && 0 <= j < Width(r)
      ensures r[i][j] == foreground[i][j]
    {
      StaticSceneAt(background, foreground, n, i, j);
      PixelConverges(background[i][j], foreground[i][j], n);
    }
    ImagesEqual(r, foreground);
  }

  /** A pixel reaches a static grey level within 255 updates. */
  lemma PixelConverges(b: Pixel, f: Pixel, n: nat)
    requires n >= 255
    ensures StepsToward(b, f, n) == f
  {
    StepsTowardDistance(b, f, n);
  }

  /** Once the background has caught up with a static scene, no pixel is active. */
  lemma StaticSceneGoesQuiet(background: Image, foreground: Image, f: Filters, n: nat)
    requires Sound(f) && SameShape(background, foreground) && NonEmpty(background) && n >= 255
    ensures ActivityOf(StaticScene(background, foreground, n), foreground, f) == 0.0
  {
    StaticSceneConverges(background, foreground, n);
    var d := AbsDiff(foreground, foreground);
    assert IsBlank(d);
    var t := Threshold(f.medianBlur(d));
    assert IsBlank(t);
    var m := DifferenceMask(foreground, foreground, f);
    assert IsBlank(f.erode(t));
    assert IsBlank(m);
    BlankCountsZero(m, Width(foreground));
  }

  /** The 0/1 mask of pixels where `a` exceeds `b` (`np.greater`). */
  function Greater(a: Image, b: Image): (m: Image)
    requires SameShape(a, b)
    ensures SameShape(m, a)
    ensures forall i, j :: 0 <= i < |a| && 0 <= j < Width(a) ==> m[i][j] == if a[i][j] > b[i][j] then 1 else 0
  {
    seq(|a|, i requires 0 <= i < |a| =>
      seq(Width(a), j requires 0 <= j < Width(a) => if a[i][j] > b[i][j] then 1 else 0))
  }

  /** The 0/1 mask of pixels where `a` is below `b` (`np.less`). */
  function Less(a: Image, b: Image): (m: Image)
    requires SameShape(a, b)
    ensures SameShape(m, a)
    ensures forall i, j :: 0 <= i < |a| && 0 <= j < Width(a) ==> m[i][j] == if a[i][j] < b[i][j] then 1 else 0
  {
    seq(|a|, i requires 0 <= i < |a| =>
      seq(Width(a), j requires 0 <= j < Width(a) => if a[i][j] < b[i][j] then 1 else 0))
  }

  /** `a += m` (sign 1) or `a -= m` (sign -1) on a uint8 array, in place. */
  method AccumulateInPlace(a: array2<Pixel>, m: Image, sign: int)
    requires sign == 1 || sign == -1
    requires HasShape(m, a.Length0, a.Length1)
    modifies a
    ensures forall r, c :: 0 <= r < a.Length0 && 0 <= c < a.Length1 ==>
              a[r, c] == Uint8(old(a[r, c]) + sign * m[r][c])
  {
    var i := 0;
    while i < a.Length0
      invariant 0 <= i <= a.Length0
      invariant forall r, c :: 0 <= r < i && 0 <= c < a.Length1 ==> a[r, c] == Uint8(old(a[r, c]) + sign * m[r][c])
      invariant forall r, c :: i <= r < a.Length0 && 0 <= c < a.Length1 ==> a[r, c] == old(a[r, c])
    {
      var j := 0;
      while j < a.Length1
        invariant 0 <= j <= a.Length1
        invariant forall r, c :: 0 <= r < i && 0 <= c < a.Length1 ==> a[r, c] == Uint8(old(a[r, c]) + sign * m[r][c])
        invariant forall c :: 0 <= c < j ==> a[i, c] == Uint8(old(a[i, c]) + sign * m[i][c])
        invariant forall c :: j <= c < a.Length1 ==> a[i, c] == old(a[i, c])
        invariant forall r, c :: i < r < a.Length0 && 0 <= c < a.Length1 ==> a[r, c] == old(a[r, c])
      {
        a[i, j] := Uint8(a[i, j] + sign * m[i][j]);
        j := j + 1;
      }
      i := i + 1;
    }
  }

  /**
    * `background += mask_lt` then `background -= mask_gt`, both masks taken from the
    * background before either update; `current` is the array's contents on entry.
    */
  method MoveTowardInPlace(a: array2<Pixel>, current: Image, foreground: Image)
    requires HasShape(current, a.Length0, a.Length1) && SameShape(current, foreground)
    requires forall i, j :: 0 <= i < a.Length0 && 0 <= j < a.Length1 ==> a[i, j] == current[i][j]
    modifies a
    ensures forall i, j :: 0 <= i < a.Length0 && 0 <= j < a.Length1 ==>
              a[i, j] == StepToward(current[i][j], foreground[i][j])
  {
    var maskGt := Greater(current, foreground);
    var maskLt := Less(current, foreground);
    AccumulateInPlace(a, maskLt, 1);
    label added:
    AccumulateInPlace(a, maskGt, -1);
    forall i, j | 0 <= i < a.Length0 && 0 <= j < a.Length1
      ensures a[i, j] == StepToward(current[i][j], foreground[i][j])
    {
      var b, f := current[i][j], foreground[i][j];
      assert old@added(a[i, j]) == Uint8(b + maskLt[i][j]);
      assert a[i, j] == Uint8(old@added(a[i, j]) - maskGt[i][j]);
      NoWraparound(b, f);
    }
  }

  /** The image processor object: an in-place background and the last foreground and mask. */
  class ImageProcessor {
    const height: nat
    const width: nat
    const filters: Filters
    const background: array2<Pixel>
    var foreground: Image
    var difference: Image

    ghost predicate Valid()
      reads this
    {
      && 0 < height && 0 < width
      && background.Length0 == height && background.Length1 == width
      && HasShape(difference, height, width)
      && Sound(filters)
    }

    /** The background array's current contents. */
    function CurrentBackground(): (img: Image)
      reads background
      requires background.Length0 == height && background.Length1 == width
      ensures HasShape(img, height, width)
    {
      seq(height, i requires 0 <= i < height reads background =>
        seq(width, j requires 0 <= j < width reads background => background[i, j]))
    }

    /** The snapshot holds the array's cells. */
    lemma BackgroundCells()
      requires background.Length0 == height && background.Length1 == width
      ensures forall i, j :: 0 <= i < height && 0 <= j < width ==> CurrentBackground()[i][j] == background[i, j]
    {
    }

    /** The initial frame seeds the background; foreground and mask start as that same image. */
    constructor (initialFrame: Image, filters: Filters)
      requires NonEmpty(initialFrame) && Sound(filters)
      ensures Valid() && fresh(background)
      ensures height == |initialFrame| && width == Width(initialFrame) && this.filters == filters
      ensures CurrentBackground() == initialFrame && foreground == initialFrame && difference == initialFrame
    {
      height := |initialFrame|;
      width := Width(initialFrame);
      this.filters := filters;
      background := new Pixel[|initialFrame|, Width(initialFrame)](
        (i, j) requires 0 <= i < |initialFrame| && 0 <= j < Width(initialFrame) => initialFrame[i][j]);
      foreground := initialFrame;
      difference := initialFrame;
      new;
      BackgroundCells();
      ImagesEqual(CurrentBackground(), initialFrame);
    }

    /** `get_image`: the foreground, the background, or (for any other value) the difference mask. */
    function GetImage(imageType: ImageType): (img: Image)
      reads this, background
      requires Valid()
      ensures imageType == Foreground ==> img == foreground
      ensures imageType == Background ==> img == CurrentBackground()
      ensures imageType == Difference ==> img == difference
    {
      match imageType
      case Foreground => foreground
      case Background => CurrentBackground()
      case Difference => difference
    }

    /**
      * `get_percentage_of_active_pixels_in_frame`. An empty frame is rejected before anything
      * changes; a frame of another shape replaces the foreground and is then rejected by the
      * differencing; otherwise the mask is computed against the old background, stored, counted,
      * and the background moves one step towards the frame.
      */
    method PercentageOfActivePixels(frame: Image) returns (r: Result<real>)
      requires Valid()
      modifies this, background
      ensures Valid()
      ensures !NonEmpty(frame) ==>
        && r == Err(OpenCvError)
        && foreground == old(foreground) && difference == old(difference)
        && CurrentBackground() == old(CurrentBackground())
      ensures NonEmpty(frame) && !(|frame| == height && Width(frame) == width) ==>
        && r == Err(OpenCvError)
        && foreground == frame && difference == old(difference)
        && CurrentBackground() == old(CurrentBackground())
      ensures NonEmpty(frame) && |frame| == height && Width(frame) == width ==>
        && foreground == frame
        && difference == DifferenceMask(old(CurrentBackground()), frame, filters)
        && r == Ok(ActivityOf(old(CurrentBackground()), frame, filters))
        && r.value == Percentage(CountNonZero(difference, width), height, width)
        && CurrentBackground() == StepImage(old(CurrentBackground()), frame)
    {
      if !(|frame| > 0 && Width(frame) > 0) {
        return Err(OpenCvError);
      }
      foreground := frame;
      if !(|frame| == height && Width(frame) == width) {
        return Err(OpenCvError);
      }
      var previous := CurrentBackground();
      BackgroundCells();
      difference := DifferenceMask(previous, foreground, filters);
      var nonzero := CountNonZero(difference, width);
      var percentage := Percentage(nonzero, height, width);
      MoveTowardInPlace(background, previous, frame);
      BackgroundCells();
      ImagesEqual(CurrentBackground(), StepImage(previous, frame));
      r := Ok(percentage);
    }
  }
}
