/**
 * The image carousel of ViewModels/Display/ImageViewModel.cs: a list of loaded
 * images, the index of the one on screen, and a slideshow timer that advances
 * the index. Loading a file is an input (`load` gives the bitmap a path yields,
 * or none when it cannot be read); a firing of the slideshow timer is the
 * event `Tick`. Intervals are in milliseconds.
 */
module ImageView {
  import opened Wrappers

  /** A loaded image, known by the file it came from. */
  datatype Bitmap = Bitmap(path: string)

  /** What the `Image` property shows: nothing, the fallback asset, or a loaded image. */
  datatype Shown = NoImage | Fallback | Picture(bitmap: Bitmap)

  /** The images `paths` yield, in order, skipping the ones that fail to load. */
  function Loaded(paths: seq<string>, load: string -> Option<Bitmap>): (images: seq<Bitmap>)
    ensures |images| <= |paths|
    ensures |images| == |paths| <==> forall i :: 0 <= i < |paths| ==> load(paths[i]).Some?
  {
    if paths == [] then []
    else
      var rest := Loaded(paths[1..], load);
      assert forall i :: 1 <= i < |paths| ==> paths[i] == paths[1..][i - 1];
      if load(paths[0]).Some? then [load(paths[0]).value] + rest else rest
  }

  /** The loaded images are exactly what the paths yield: nothing else is added. */
  lemma {:induction false} LoadedMembers(paths: seq<string>, load: string -> Option<Bitmap>, b: Bitmap)
    ensures b in Loaded(paths, load) <==> exists i :: 0 <= i < |paths| && load(paths[i]) == Some(b)
  {
    if paths != [] {
      LoadedMembers(paths[1..], load, b);
      if exists i :: 0 <= i < |paths| && load(paths[i]) == Some(b) {
        var i :| 0 <= i < |paths| && load(paths[i]) == Some(b);
        if i > 0 {
          assert paths[1..][i - 1] == paths[i];
        }
      }
      if exists i :: 0 <= i < |paths| - 1 && load(paths[1..][i]) == Some(b) {
        var i :| 0 <= i < |paths| - 1 && load(paths[1..][i]) == Some(b);
        assert paths[i + 1] == paths[1..][i];
      }
    }
  }

  /** Loading a list in two parts gives the images of the first part, then of the second. */
  lemma {:induction false} LoadedAppend(a: seq<string>, b: seq<string>, load: string -> Option<Bitmap>)
    ensures Loaded(a + b, load) == Loaded(a, load) + Loaded(b, load)
  {
    if a != [] {
      assert (a + b)[1..] == a[1..] + b;
      LoadedAppend(a[1..], b, load);
    } else {
      assert a + b == b;
    }
  }

  /** One step of the slideshow: the next index, wrapping round after the last image. */
  function Advance(index: int, count: int): (next: int)
    requires 0 <= index && count > 0
    ensures 0 <= next < count
    ensures next == if index + 1 < count then index + 1 else (index + 1) % count
  {
    (index + 1) % count
  }

  /** `n` slideshow steps from `index`. */
  function AdvanceBy(index: int, n: nat, count: int): (next: int)
    requires 0 <= index && count > 0
    ensures 0 <= next
  {
    if n == 0 then index else Advance(AdvanceBy(index, n - 1, count), count)
  }

  /** A positive multiple of a positive number is at least that number. */
  lemma MulAtLeast(d: int, c: int)
    requires d >= 1 && c > 0
    ensures d * c >= c
  {
    assert d * c == (d - 1) * c + c;
  }

  /** Euclidean division is unique: `q * c + r` with `0 <= r < c` leaves remainder `r`. */
  lemma ModUnique(x: int, c: int, q: int, r: int)
    requires c > 0 && 0 <= r < c && x == q * c + r
    ensures x % c == r
  {
    var q', r' := x / c, x % c;
    assert (q - q') * c == r' - r;
    if q > q' {
      MulAtLeast(q - q', c);
    } else if q < q' {
      MulAtLeast(q' - q, c);
    }
  }

  /** Reducing modulo `count` before adding one changes nothing. */
  lemma ModSucc(a: int, count: int)
    requires a >= 0 && count > 0
    ensures (a % count + 1) % count == (a + 1) % count
  {
    var q, r := a / count, a % count;
    if r + 1 < count {
      ModUnique(a + 1, count, q, r + 1);
      ModUnique(r + 1, count, 0, r + 1);
    } else {
      ModUnique(a + 1, count, q + 1, 0);
      ModUnique(r + 1, count, 1, 0);
    }
  }

  /**
   * From an index on screen, `n` ticks move `n` images on, wrapping round:
   * after `count` ticks the slideshow is back at the image it started from.
   */
  lemma {:induction false} AdvanceByIsModular(index: int, n: nat, count: int)
    requires 0 <= index < count
    ensures AdvanceBy(index, n, count) == (index + n) % count
  {
    if n > 0 {
      AdvanceByIsModular(index, n - 1, count);
      ModSucc(index + n - 1, count);
    }
  }

  class ImageViewModel {
    var images: seq<Bitmap>
    var currentIndex: int
    /** The interval of the running slideshow timer, or none when no slideshow runs. */
    var slideshow: Option<int>
    var isDisposed: bool

    /**
     * The index never goes negative, and a slideshow only runs over more than
     * one image.
     */
    ghost predicate Valid()
      reads this
    {
      && currentIndex >= 0
      && (slideshow.Some? ==> |images| > 1)
    }

    constructor ()
      ensures Valid()
      ensures images == [] && currentIndex == 0 && slideshow.None? && !isDisposed
    {
      images := [];
      currentIndex := 0;
      slideshow := None;
      isDisposed := false;
    }

    /** `ImageCount`. */
    function ImageCount(): (n: nat)
      reads this
      ensures n == |images|
    {
      |images|
    }

    /**
     * `Image`: nothing without images, the fallback asset when the index is
     * outside the list, and otherwise the image at the index.
     */
    function Image(): (s: Shown)
      reads this
      ensures s == NoImage <==> |images| == 0
      ensures s == Fallback <==> |images| > 0 && !(0 <= currentIndex < |images|)
      ensures s.Picture? <==> 0 <= currentIndex < |images|
      ensures s.Picture? ==> s.bitmap == images[currentIndex]
    {
      if |images| == 0 then NoImage
      else if currentIndex >= |images| || currentIndex < 0 then Fallback
      else Picture(images[currentIndex])
    }

    /** `HasImages`: whether any image is loaded. */
    function HasImages(): (b: bool)
      reads this
      ensures b <==> Image() != NoImage
    {
      |images| > 0
    }

    /**
     * `AddImages`: load every path in turn and append the images that loaded,
     * in order; the result says whether every path loaded.
     */
    method AddImages(paths: seq<string>, load: string -> Option<Bitmap>) returns (fullSuccess: bool)
      requires Valid()
      modifies this
      ensures Valid()
      ensures images == old(images) + Loaded(paths, load)
      ensures fullSuccess <==> forall i :: 0 <= i < |paths| ==> load(paths[i]).Some?
      ensures currentIndex == old(currentIndex) && slideshow == old(slideshow) && isDisposed == old(isDisposed)
    {
      var temp: seq<Bitmap> := [];
      fullSuccess := true;
      for i := 0 to |paths|
        invariant temp == Loaded(paths[..i], load)
        invariant fullSuccess <==> forall k :: 0 <= k < i ==> load(paths[k]).Some?
        invariant unchanged(this)
      {
        LoadedAppend(paths[..i], [paths[i]], load);
        assert paths[..i + 1] == paths[..i] + [paths[i]];
        var bitmap := load(paths[i]);
        if bitmap.Some? {
          temp := temp + [bitmap.value];
        } else {
          fullSuccess := false;
        }
      }
      assert paths[..|paths|] == paths;
      images := images + temp;
    }

    /**
     * `StartSlideshow`: does nothing while a slideshow runs or with at most
     * one image; otherwise starts the timer with the given interval, or the
     * default one.
     */
    method StartSlideshow(interval: Option<int>, defaultInterval: int)
      requires Valid()
      modifies this
      ensures Valid()
      ensures old(slideshow).Some? || |old(images)| <= 1 ==> unchanged(this)
      ensures old(slideshow).None? && |old(images)| > 1 ==>
                && slideshow == Some(if interval.Some? then interval.value else defaultInterval)
                && images == old(images) && currentIndex == old(currentIndex) && isDisposed == old(isDisposed)
    {
      if slideshow.Some? || |images| <= 1 {
        return;
      }
      slideshow := Some(if interval.Some? then interval.value else defaultInterval);
    }

    /** A firing of the slideshow timer: move to the next image, wrapping round. */
    method Tick()
      requires Valid()
      modifies this
      ensures Valid()
      ensures old(slideshow).None? ==> unchanged(this)
      ensures old(slideshow).Some? ==>
                && images == old(images) && slideshow == old(slideshow) && isDisposed == old(isDisposed)
                && currentIndex == Advance(old(currentIndex), |images|)
                && 0 <= currentIndex < |images| && Image() == Picture(images[currentIndex])
    {
      if slideshow.None? {
        return;
      }
      currentIndex := (currentIndex + 1) % |images|;
    }

    /** `StopSlideshow`: no timer runs afterwards. */
    method StopSlideshow()
      requires Valid()
      modifies this
      ensures Valid()
      ensures slideshow.None?
      ensures images == old(images) && currentIndex == old(currentIndex) && isDisposed == old(isDisposed)
    {
      slideshow := None;
    }

    /** `ClearImages`: stop the slideshow and drop every image; the index is kept as it was. */
    method ClearImages()
      requires Valid()
      modifies this
      ensures Valid()
      ensures images == [] && slideshow.None? && Image() == NoImage && !HasImages()
      ensures currentIndex == old(currentIndex) && isDisposed == old(isDisposed)
    {
      StopSlideshow();
      images := [];
    }

    /** `Dispose`: the first call stops the slideshow and clears the images; later calls change nothing. */
    method Dispose()
      requires Valid()
      modifies this
      ensures Valid()
      ensures old(isDisposed) ==> unchanged(this)
      ensures !old(isDisposed) ==> isDisposed && images == [] && slideshow.None? && currentIndex == old(currentIndex)
    {
      if isDisposed {
        return;
      }
      isDisposed := true;
      StopSlideshow();
      ClearImages();
    }
  }
}
