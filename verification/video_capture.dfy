/**
 * The lifecycle of Scripts/Helper/VideoCapture.py: a capture object that
 * starts a producer thread, waits up to 600 polls for its first frame, hands
 * out the latest frame, and stops the thread again. The producer thread and
 * the camera are not modelled as code: the caller supplies when the first
 * frame arrives and what each later read returns, and `ProducerIteration`
 * is one pass of the producer's loop.
 */
module VideoCapture {
  import opened Wrappers
  import opened Geometry

  /** What to capture from: a camera index or a file name / stream URL. */
  datatype Target = CameraIndex(index: int) | Location(name: string)

  /** Camera 0 lets OpenCV pick the camera. */
  const DefaultTarget: Target := CameraIndex(0)
  /** `cv2.CAP_ANY`: let OpenCV pick the backend. */
  const DefaultBackend: int := 0
  /** `cv2.CAP_PROP_FPS`. */
  const PropFps: int := 5
  /** Capture at 30 frames per second unless told otherwise. */
  const DefaultProperties: map<int, int> := map[PropFps := 30]

  /** Python truthiness of a target: camera 0 and the empty string are false. */
  predicate Falsy(t: Target)
  {
    t == CameraIndex(0) || t == Location("")
  }

  /** `target or DEFAULT_TARGET`: None and false values fall back to the default. */
  function TargetOrDefault(t: Option<Target>): (r: Target)
    ensures t.Some? && !Falsy(t.value) ==> r == t.value
    ensures t.None? || Falsy(t.value) ==> r == DefaultTarget
  {
    if t.Some? && !Falsy(t.value) then t.value else DefaultTarget
  }

  /** `backend or DEFAULT_BACKEND`: None and 0 fall back to the default. */
  function BackendOrDefault(b: Option<int>): (r: int)
    ensures b.Some? && b.value != 0 ==> r == b.value
    ensures b.None? || b.value == 0 ==> r == DefaultBackend
  {
    if b.Some? && b.value != 0 then b.value else DefaultBackend
  }

  /** `properties or DEFAULT_PROPERTIES`: None and the empty dict fall back to the default. */
  function PropertiesOrDefault(p: Option<map<int, int>>): (r: map<int, int>)
    ensures p.Some? && p.value != map[] ==> r == p.value
    ensures p.None? || p.value == map[] ==> r == DefaultProperties
  {
    if p.Some? && p.value != map[] then p.value else DefaultProperties
  }

  /** A frame, by its dimensions in pixels. */
  datatype Frame = Frame(width: nat, height: nat)

  /** The height every stored frame is scaled to. */
  const FrameHeight: nat := 480

  /**
   * The downscaling in the producer loop: height 480, width the original
   * aspect ratio times 480 truncated to int. The width is the largest whole
   * number of pixels that does not widen the picture.
   */
  function Resize(raw: Frame): (f: Frame)
    requires raw.height > 0
    ensures f.height == FrameHeight
    ensures f.width * raw.height <= raw.width * FrameHeight < (f.width + 1) * raw.height
  {
    var x := raw.width as real / raw.height as real * FrameHeight as real;
    var w := Trunc(x);
    ScaledWidthBounds(raw.width, raw.height, w);
    Frame(w, FrameHeight)
  }

  /** Truncating (w / h) * 480 gives the largest `n` with n * h <= w * 480. */
  lemma ScaledWidthBounds(w: nat, h: nat, n: int)
    requires h > 0
    requires n == Trunc(w as real / h as real * FrameHeight as real)
    ensures n >= 0
    ensures n * h <= w * FrameHeight < (n + 1) * h
  {
    var x := w as real / h as real * FrameHeight as real;
    ScaledIsNonNegative(w as real, h as real, FrameHeight as real);
    assert n as real <= x < (n + 1) as real;
    ScaleCancel(w as real, h as real, FrameHeight as real);
    CastMul(w, FrameHeight);
    Between(x, h as real, (w * FrameHeight) as real, n as real, (n + 1) as real);
    CastMul(n, h);
    CastMul(n + 1, h);
  }

  /** A non-negative amount divided by a positive one and scaled by a non-negative one stays non-negative. */
  lemma ScaledIsNonNegative(a: real, h: real, c: real)
    requires a >= 0.0 && h > 0.0 && c >= 0.0
    ensures a / h * c >= 0.0
  {
  }

  /** Scaling by `c` after dividing by `h` and then multiplying by `h` scales by `c` alone. */
  lemma ScaleCancel(a: real, h: real, c: real)
    requires h > 0.0
    ensures a / h * c * h == a * c
  {
  }

  /** Converting a product of integers to real is the product of the conversions. */
  lemma CastMul(a: int, b: int)
    ensures (a * b) as real == a as real * b as real
  {
  }

  /** Multiplying `lo <= x < hi` by a positive `h` keeps the order. */
  lemma Between(x: real, h: real, p: real, lo: real, hi: real)
    requires h > 0.0 && x * h == p && lo <= x < hi
    ensures lo * h <= p < hi * h
  {
    MulRealMono(lo, x, h);
    MulRealStrictMono(x, hi, h);
  }

  lemma MulRealMono(a: real, b: real, c: real)
    requires a <= b && c > 0.0
    ensures a * c <= b * c
  {
  }

  lemma MulRealStrictMono(a: real, b: real, c: real)
    requires a < b && c > 0.0
    ensures a * c < b * c
  {
  }

  /** Why an operation of the capture object raises. */
  datatype CaptureError = AlreadyRunning | TimedOut | NotRunning | NoFrame

  /** The number of 0.1-second polls `start` waits for the first frame. */
  const MaxPolls: nat := 600

  /** When the producer first stores a frame: during poll `poll` of `start`, with the frame as read. */
  datatype FirstFrame = FirstFrame(poll: nat, raw: Frame)

  class VideoCapture {
    const target: Target
    const backend: int
    const properties: map<int, int>
    /** `_video_capture_thread is not None`. */
    var hasThread: bool
    /** Whether the producer thread is still in its loop. */
    var producerRunning: bool
    var currentFrame: Option<Frame>
    var stopping: bool

    /** With no thread there is no frame and no producer; a running producer has not been told to stop. */
    ghost predicate Valid()
      reads this
    {
      && (!hasThread ==> currentFrame.None? && !producerRunning)
      && (producerRunning ==> !stopping)
    }

    /** `__init__`: defaults for missing or false arguments, no thread, no frame, not stopping. */
    constructor (target: Option<Target>, backend: Option<int>, properties: Option<map<int, int>>)
      ensures Valid()
      ensures this.target == TargetOrDefault(target)
      ensures this.backend == BackendOrDefault(backend)
      ensures this.properties == PropertiesOrDefault(properties)
      ensures !hasThread && currentFrame.None? && !stopping
    {
      this.target := TargetOrDefault(target);
      this.backend := BackendOrDefault(backend);
      this.properties := PropertiesOrDefault(properties);
      hasThread := false;
      producerRunning := false;
      currentFrame := None;
      stopping := false;
    }

    /**
     * `start`: raises if a thread exists. Otherwise starts the producer and
     * polls up to 600 times for a frame. If none arrived, the thread is told to
     * stop and joined, thread and frame are cleared and `start` raises. The
     * producer exits right after storing its first frame if `stopping` is still
     * set from an earlier `stop`, since nothing clears that flag.
     */
    method Start(first: Option<FirstFrame>) returns (r: Result<(), CaptureError>)
      requires Valid()
      requires first.Some? ==> first.value.raw.height > 0
      modifies this
      ensures Valid()
      ensures old(hasThread) ==> r == Err(AlreadyRunning) && unchanged(this)
      ensures !old(hasThread) && (first.None? || first.value.poll >= MaxPolls) ==>
                r == Err(TimedOut) && !hasThread && currentFrame.None? && stopping
      ensures !old(hasThread) && first.Some? && first.value.poll < MaxPolls ==>
                && r.Ok? && hasThread
                && currentFrame == Some(Resize(first.value.raw))
                && stopping == old(stopping)
                && producerRunning == !old(stopping)
    {
      if hasThread {
        return Err(AlreadyRunning);
      }
      hasThread := true;
      producerRunning := !stopping;
      var i := 0;
      while currentFrame.None? && i < MaxPolls
        invariant 0 <= i <= MaxPolls
        invariant hasThread && stopping == old(stopping) && producerRunning == !stopping
        invariant currentFrame.None? <==> first.None? || first.value.poll >= i
        invariant currentFrame.Some? ==> currentFrame == Some(Resize(first.value.raw))
      {
        // time.sleep(0.1): the producer may store its first frame meanwhile
        if first.Some? && first.value.poll == i {
          currentFrame := Some(Resize(first.value.raw));
        }
        i := i + 1;
      }
      if currentFrame.None? {
        stopping := true;
        producerRunning := false;
        hasThread := false;
        currentFrame := None;
        return Err(TimedOut);
      }
      r := Ok(());
    }

    /**
     * One pass of the producer loop `_thread`: a successful read replaces the
     * current frame with its downscaled version, a failed one is ignored; the
     * loop ends once `stopping` is set.
     */
    method ProducerIteration(read: Option<Frame>) returns (continues: bool)
      requires Valid() && producerRunning
      requires read.Some? ==> read.value.height > 0
      modifies this
      ensures Valid()
      ensures currentFrame == (if read.Some? then Some(Resize(read.value)) else old(currentFrame))
      ensures continues == producerRunning == !stopping
      ensures hasThread == old(hasThread) && stopping == old(stopping)
    {
      if read.Some? {
        currentFrame := Some(Resize(read.value));
      }
      continues := !stopping;
      producerRunning := continues;
    }

    /** `get_current_frame`: the stored frame, or an error when there is none. */
    function GetCurrentFrame(): (r: Result<Frame, CaptureError>)
      reads this
      ensures r.Ok? <==> currentFrame.Some?
      ensures r.Ok? ==> r.value == currentFrame.value
      ensures r.Err? ==> r.error == NoFrame
    {
      if currentFrame.None? then Err(NoFrame) else Ok(currentFrame.value)
    }

    /**
     * `stop`: raises when there is no thread; otherwise sets `stopping`, joins
     * the producer and clears thread and frame, so `get_current_frame` then
     * raises.
     */
    method Stop() returns (r: Result<(), CaptureError>)
      requires Valid()
      modifies this
      ensures Valid()
      ensures !old(hasThread) ==> r == Err(NotRunning) && unchanged(this)
      ensures old(hasThread) ==> && r.Ok? && stopping && !hasThread && !producerRunning
                                 && currentFrame.None? && GetCurrentFrame() == Err(NoFrame)
    {
      if !hasThread {
        return Err(NotRunning);
      }
      stopping := true;
      producerRunning := false;
      hasThread := false;
      currentFrame := None;
      r := Ok(());
    }
  }
}
