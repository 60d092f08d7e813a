/**
 * Choosing how a hotspot's media is shown (ViewModels/Display/Layouts and
 * ViewModels/Interfaces/Display/Layouts/LayoutFactory.cs). A layout factory
 * says whether it can show a hotspot's media and builds the layout; the
 * layout provider asks its factories in order and uses the first that
 * accepts, or shows an error. The four built-in factories split all media by
 * whether there are images and whether there are videos, so exactly one of
 * them accepts any hotspot.
 *
 * The view model provider, the file system and the default times are the
 * `Env` parameter; the video player is reduced to what the layouts ask of it.
 */
module Layouts {
  import opened Wrappers
  import opened ImageView

  /** `Hotspot.Media`: what a hotspot shows. */
  datatype Media = Media(id: int, title: string, description: string,
                         imagePaths: seq<string>, videoPaths: seq<string>)

  /** The description of the error layout shown when no factory accepts a hotspot. */
  const ErrorDescription: string :=
    "Cannot show the information for this hotspot.\nPlease ask a member of staff for help."

  /** `ILayoutProvider.DefaultErrorTitle`. */
  const DefaultErrorTitle: string := "Error"

  /** The slideshow interval of the image layout: 5 seconds, in milliseconds. */
  const ImageLayoutInterval: int := 5000

  /**
   * What building a layout depends on outside the model: how image files
   * load, the image view model's default slideshow interval and the layouts'
   * default deactivation time (milliseconds).
   */
  datatype Env = Env(load: string -> Option<Bitmap>, defaultImageInterval: int, defaultDeactivationTime: int)

  /**
   * The layout factories: the four built-in ones, and any other factory,
   * which accepts what its `accepts` says and builds a layout of its own
   * that carries the media and its `tag`.
   */
  datatype Factory =
    | DescriptionFactory
    | ImageFactory
    | VideoFactory
    | ImagePlusVideoFactory
    | CustomFactory(tag: int, accepts: Media -> bool)
  {
    predicate IsBuiltIn()
    {
      !CustomFactory?
    }
  }

  /** The exception `CreateLayout` throws on media the factory does not accept. */
  datatype LayoutError = ArgumentException

  /**
   * `IsCompatibleData` of each factory: text only for the description
   * layout, images without videos for the image layout, videos without
   * images for the video layout, and both for the image-and-video layout.
   * A built-in layout that shows images only accepts media with images, one
   * that shows videos only media with videos, and the description layout
   * only media with neither.
   */
  predicate IsCompatibleData(f: Factory, m: Media)
    ensures IsCompatibleData(f, m) && (f.ImageFactory? || f.ImagePlusVideoFactory?) ==> |m.imagePaths| > 0
    ensures IsCompatibleData(f, m) && (f.VideoFactory? || f.ImagePlusVideoFactory?) ==> |m.videoPaths| > 0
    ensures IsCompatibleData(f, m) && f.DescriptionFactory? ==> m.imagePaths == [] && m.videoPaths == []
  {
    match f
    case DescriptionFactory => |m.imagePaths| == 0 && |m.videoPaths| == 0
    case ImageFactory => |m.imagePaths| > 0 && |m.videoPaths| == 0
    case VideoFactory => |m.imagePaths| == 0 && |m.videoPaths| >= 1
    case ImagePlusVideoFactory => |m.imagePaths| >= 1 && |m.videoPaths| >= 1
    case CustomFactory(_, accepts) => accepts(m)
  }

  /**
   * The built-in factory for some media, chosen from whether it has images
   * and whether it has videos; it is the only built-in factory that accepts
   * the media.
   */
  function BuiltInFor(m: Media): (f: Factory)
    ensures f.IsBuiltIn() && IsCompatibleData(f, m)
    ensures forall g: Factory :: g.IsBuiltIn() && IsCompatibleData(g, m) ==> g == f
  {
    match (|m.imagePaths| > 0, |m.videoPaths| > 0)
    case (false, false) => DescriptionFactory
    case (true, false) => ImageFactory
    case (false, true) => VideoFactory
    case (true, true) => ImagePlusVideoFactory
  }

  /** A built-in factory accepts some media exactly when it is the one chosen for it. */
  lemma CompatibleIffChosen(f: Factory, m: Media)
    requires f.IsBuiltIn()
    ensures IsCompatibleData(f, m) <==> f == BuiltInFor(m)
  {
  }

  /** The index of the first factory that accepts `m`, if any. */
  function FirstCompatible(factories: seq<Factory>, m: Media): (k: Option<nat>)
    ensures k.Some? ==> k.value < |factories| && IsCompatibleData(factories[k.value], m)
    ensures k.Some? ==> forall j :: 0 <= j < k.value ==> !IsCompatibleData(factories[j], m)
    ensures k.None? <==> forall j :: 0 <= j < |factories| ==> !IsCompatibleData(factories[j], m)
  {
    if factories == [] then None
    else if IsCompatibleData(factories[0], m) then Some(0)
    else
      var rest := FirstCompatible(factories[1..], m);
      assert forall j :: 1 <= j < |factories| ==> factories[j] == factories[1..][j - 1];
      if rest.None? then None else Some(rest.value + 1)
  }

  /** Factories after the first one that accepts are never consulted: appending more changes nothing. */
  lemma {:induction false} LaterFactoriesIgnored(factories: seq<Factory>, more: seq<Factory>, m: Media)
    requires FirstCompatible(factories, m).Some?
    ensures FirstCompatible(factories + more, m) == FirstCompatible(factories, m)
  {
    if !IsCompatibleData(factories[0], m) {
      assert (factories + more)[1..] == factories[1..] + more;
      LaterFactoriesIgnored(factories[1..], more, m);
    }
  }

  /**
   * With all four built-in factories present, in any order, and no others,
   * some factory always accepts, and it is the one chosen for the media: the
   * error layout is reachable only through other factories.
   */
  lemma BuiltInsAlwaysAccept(factories: seq<Factory>, m: Media)
    requires DescriptionFactory in factories && ImageFactory in factories
    requires VideoFactory in factories && ImagePlusVideoFactory in factories
    requires forall j :: 0 <= j < |factories| ==> factories[j].IsBuiltIn()
    ensures FirstCompatible(factories, m).Some?
    ensures factories[FirstCompatible(factories, m).value] == BuiltInFor(m)
  {
    var f := BuiltInFor(m);
    var j :| 0 <= j < |factories| && factories[j] == f;
  }

  /** `DescriptionViewModel`: a title and a description, both editable. */
  class DescriptionViewModel {
    var title: string
    var description: string

    constructor (title: string, description: string)
      ensures this.title == title && this.description == description
    {
      this.title := title;
      this.description := description;
    }

    /** The `Title` setter. */
    method SetTitle(value: string)
      modifies this
      ensures title == value && description == old(description)
    {
      title := value;
    }

    /** The `Description` setter. */
    method SetDescription(value: string)
      modifies this
      ensures description == value && title == old(title)
    {
      description := value;
    }
  }

  /** The part of the video view model the layouts use: what it was asked to play, and whether it was disposed. */
  class VideoPlayer {
    var playlist: seq<string>
    var isDisposed: bool

    constructor ()
      ensures playlist == [] && !isDisposed
    {
      playlist := [];
      isDisposed := false;
    }

    /** `PlayVideos`: play the given videos one after another. */
    method PlayVideos(paths: seq<string>)
      modifies this
      ensures playlist == paths && isDisposed == old(isDisposed)
    {
      playlist := paths;
    }

    method Dispose()
      modifies this
      ensures isDisposed && playlist == old(playlist)
    {
      isDisposed := true;
    }
  }

  /**
   * `ImageWithDescriptionViewModel`: the hotspot's title and description and
   * its images in a 5-second slideshow; the layout deactivates itself after
   * `deactivateAfter` milliseconds.
   */
  class ImageWithDescriptionViewModel {
    const hotspotId: int
    const title: string
    const description: string
    const imageViewModel: ImageViewModel
    const deactivateAfter: int

    constructor (env: Env, hotspotId: int, title: string, description: string,
                 imagePaths: seq<string>, deactivateAfter: Option<int>)
      ensures this.hotspotId == hotspotId && this.title == title && this.description == description
      ensures fresh(imageViewModel) && imageViewModel.Valid()
      ensures imageViewModel.images == Loaded(imagePaths, env.load) && imageViewModel.currentIndex == 0
      ensures imageViewModel.slideshow == (if |imageViewModel.images| > 1 then Some(ImageLayoutInterval) else None)
      ensures this.deactivateAfter == (if deactivateAfter.Some? then deactivateAfter.value else env.defaultDeactivationTime)
    {
      this.hotspotId := hotspotId;
      this.title := title;
      this.description := description;
      var images := new ImageViewModel();
      var _ := images.AddImages(imagePaths, env.load);
      images.StartSlideshow(Some(ImageLayoutInterval), env.defaultImageInterval);
      imageViewModel := images;
      this.deactivateAfter := if deactivateAfter.Some? then deactivateAfter.value else env.defaultDeactivationTime;
    }
  }

  /**
   * `VideoWithDescriptionViewModel`: the hotspot's title and description and
   * its videos; once every video has finished, the layout deactivates itself
   * after `deactivateAfterVideos` milliseconds.
   */
  class VideoWithDescriptionViewModel {
    const hotspotId: int
    const title: string
    const description: string
    const videoViewModel: VideoPlayer
    const deactivateAfterVideos: int

    constructor (env: Env, hotspotId: int, title: string, description: string,
                 videoPaths: seq<string>, deactivateAfter: Option<int>)
      ensures this.hotspotId == hotspotId && this.title == title && this.description == description
      ensures fresh(videoViewModel) && videoViewModel.playlist == videoPaths && !videoViewModel.isDisposed
      ensures deactivateAfterVideos == (if deactivateAfter.Some? then deactivateAfter.value else env.defaultDeactivationTime)
    {
      this.hotspotId := hotspotId;
      this.title := title;
      this.description := description;
      var player := new VideoPlayer();
      player.PlayVideos(videoPaths);
      videoViewModel := player;
      deactivateAfterVideos := if deactivateAfter.Some? then deactivateAfter.value else env.defaultDeactivationTime;
    }

    /** `Dispose`: disposes the video view model. */
    method Dispose()
      modifies videoViewModel
      ensures videoViewModel.isDisposed && videoViewModel.playlist == old(videoViewModel.playlist)
    {
      videoViewModel.Dispose();
    }
  }

  /**
   * `ImagePlusVideoWithDescriptionViewModel`: title, description, the images
   * in a slideshow at the image view model's default interval, and the
   * videos; it deactivates after the videos, as the video layout does.
   */
  class ImagePlusVideoWithDescriptionViewModel {
    const hotspotId: int
    const title: string
    const description: string
    const imageViewModel: ImageViewModel
    const videoViewModel: VideoPlayer
    const deactivateAfterVideos: int

    ghost predicate Valid()
      reads imageViewModel
    {
      imageViewModel.Valid()
    }

    constructor (env: Env, hotspotId: int, title: string, description: string,
                 imagePaths: seq<string>, videoPaths: seq<string>, deactivateAfter: Option<int>)
      ensures this.hotspotId == hotspotId && this.title == title && this.description == description
      ensures fresh(imageViewModel) && Valid()
      ensures imageViewModel.images == Loaded(imagePaths, env.load) && imageViewModel.currentIndex == 0
      ensures imageViewModel.slideshow == (if |imageViewModel.images| > 1 then Some(env.defaultImageInterval) else None)
      ensures fresh(videoViewModel) && videoViewModel.playlist == videoPaths && !videoViewModel.isDisposed
      ensures deactivateAfterVideos == (if deactivateAfter.Some? then deactivateAfter.value else env.defaultDeactivationTime)
    {
      this.hotspotId := hotspotId;
      this.title := title;
      this.description := description;
      var images := new ImageViewModel();
      var _ := images.AddImages(imagePaths, env.load);
      images.StartSlideshow(None, env.defaultImageInterval);
      imageViewModel := images;
      var player := new VideoPlayer();
      player.PlayVideos(videoPaths);
      videoViewModel := player;
      deactivateAfterVideos := if deactivateAfter.Some? then deactivateAfter.value else env.defaultDeactivationTime;
    }

    /** `Dispose`: disposes the image view model, then the video view model. */
    method Dispose()
      requires Valid()
      modifies imageViewModel, videoViewModel
      ensures Valid()
      ensures imageViewModel.isDisposed
      ensures !old(imageViewModel.isDisposed) ==> imageViewModel.images == [] && imageViewModel.slideshow.None?
      ensures videoViewModel.isDisposed && videoViewModel.playlist == old(videoViewModel.playlist)
    {
      imageViewModel.Dispose();
      videoViewModel.Dispose();
    }
  }

  /** The layouts a hotspot can be shown in. */
  datatype Layout =
    | Description(description: DescriptionViewModel)
    | ImageWithDescription(image: ImageWithDescriptionViewModel)
    | VideoWithDescription(video: VideoWithDescriptionViewModel)
    | ImagePlusVideoWithDescription(both: ImagePlusVideoWithDescriptionViewModel)
    | Custom(tag: int, media: Media)
    | Welcome
    | Message(title: string, text: string)
    | Error(title: string, message: string)

  /** The objects of a layout whose state the layout's contents are read from. */
  function Objects(l: Layout): set<object>
  {
    match l
    case Description(d) => {d}
    case ImageWithDescription(i) => {i.imageViewModel}
    case VideoWithDescription(v) => {v.videoViewModel}
    case ImagePlusVideoWithDescription(b) => {b.imageViewModel, b.videoViewModel}
    case _ => {}
  }

  /**
   * `l` is the layout factory `f` builds for `m`: of the factory's kind,
   * carrying the hotspot's id, title and description, its loaded images and
   * the videos it plays. Layouts built by factories deactivate after the
   * default time.
   */
  ghost predicate Builds(f: Factory, env: Env, m: Media, l: Layout)
    reads Objects(l)
  {
    match f
    case DescriptionFactory =>
      l.Description? && l.description.title == m.title && l.description.description == m.description
    case ImageFactory =>
      && l.ImageWithDescription?
      && l.image.hotspotId == m.id && l.image.title == m.title && l.image.description == m.description
      && l.image.imageViewModel.images == Loaded(m.imagePaths, env.load)
      && l.image.deactivateAfter == env.defaultDeactivationTime
    case VideoFactory =>
      && l.VideoWithDescription?
      && l.video.hotspotId == m.id && l.video.title == m.title && l.video.description == m.description
      && l.video.videoViewModel.playlist == m.videoPaths
      && l.video.deactivateAfterVideos == env.defaultDeactivationTime
    case ImagePlusVideoFactory =>
      && l.ImagePlusVideoWithDescription?
      && l.both.hotspotId == m.id && l.both.title == m.title && l.both.description == m.description
      && l.both.imageViewModel.images == Loaded(m.imagePaths, env.load)
      && l.both.videoViewModel.playlist == m.videoPaths
      && l.both.deactivateAfterVideos == env.defaultDeactivationTime
    case CustomFactory(tag, _) => l == Custom(tag, m)
  }

  /** `ConstructLayout` of each factory: build its layout from the media, with the default deactivation time. */
  method ConstructLayout(f: Factory, env: Env, m: Media) returns (l: Layout)
    ensures Builds(f, env, m, l)
    ensures forall o :: o in Objects(l) ==> fresh(o)
  {
    match f
    case DescriptionFactory =>
      var d := new DescriptionViewModel(m.title, m.description);
      l := Description(d);
    case ImageFactory =>
      var i := new ImageWithDescriptionViewModel(env, m.id, m.title, m.description, m.imagePaths, None);
      l := ImageWithDescription(i);
    case VideoFactory =>
      var v := new VideoWithDescriptionViewModel(env, m.id, m.title, m.description, m.videoPaths, None);
      l := VideoWithDescription(v);
    case ImagePlusVideoFactory =>
      var b := new ImagePlusVideoWithDescriptionViewModel(env, m.id, m.title, m.description,
                                                          m.imagePaths, m.videoPaths, None);
      l := ImagePlusVideoWithDescription(b);
    case CustomFactory(tag, _) =>
      l := Custom(tag, m);
  }

  /**
   * `CreateLayout`: refuses media the factory does not accept, before
   * building anything; otherwise returns the factory's layout.
   */
  method CreateLayout(f: Factory, env: Env, m: Media) returns (r: Result<Layout, LayoutError>)
    ensures r.Err? <==> !IsCompatibleData(f, m)
    ensures r.Err? ==> r.error == ArgumentException
    ensures r.Ok? ==> Builds(f, env, m, r.value) && forall o :: o in Objects(r.value) ==> fresh(o)
  {
    if !IsCompatibleData(f, m) {
      return Err(ArgumentException);
    }
    var l := ConstructLayout(f, env, m);
    return Ok(l);
  }

  /** `GetWelcomeLayout`. */
  function GetWelcomeLayout(): Layout
  {
    Welcome
  }

  /** `GetMessageLayout`: a message with the given title and text. */
  function GetMessageLayout(title: string, description: string): Layout
  {
    Message(title, description)
  }

  /** `GetErrorLayout`: an error message under the given title, "Error" by default. */
  function GetErrorLayout(message: string, title: Option<string>): Layout
  {
    Error(if title.Some? then title.value else DefaultErrorTitle, message)
  }

  class LayoutProvider {
    const factories: seq<Factory>

    /**
     * The discovering constructor: every built-in factory. Their order comes
     * from reflection and is unspecified; `BuiltInsAlwaysAccept` shows it does
     * not matter.
     */
    constructor ()
      ensures factories == [DescriptionFactory, ImageFactory, VideoFactory, ImagePlusVideoFactory]
    {
      factories := [DescriptionFactory, ImageFactory, VideoFactory, ImagePlusVideoFactory];
    }

    /** The explicit constructor: exactly the given factories, in the given order. */
    constructor WithFactories(factories: seq<Factory>)
      ensures this.factories == factories
    {
      this.factories := factories;
    }

    /**
     * `GetLayout`: the layout of the first factory that accepts the media;
     * with none, an error layout titled "Error" that asks the visitor to
     * find a member of staff.
     */
    method GetLayout(env: Env, m: Media) returns (l: Layout)
      ensures FirstCompatible(factories, m).None? ==> l == GetErrorLayout(ErrorDescription, None)
      ensures FirstCompatible(factories, m).Some? ==> Builds(factories[FirstCompatible(factories, m).value], env, m, l)
      ensures forall o :: o in Objects(l) ==> fresh(o)
    {
      for i := 0 to |factories|
        invariant forall j :: 0 <= j < i ==> !IsCompatibleData(factories[j], m)
      {
        if IsCompatibleData(factories[i], m) {
          var r := CreateLayout(factories[i], env, m);
          return r.value;
        }
      }
      return GetErrorLayout(ErrorDescription, None);
    }
  }

  /** The discovered factories never fall back to the error layout. */
  lemma DiscoveredNeverErrs(m: Media)
    ensures FirstCompatible([DescriptionFactory, ImageFactory, VideoFactory, ImagePlusVideoFactory], m).Some?
  {
    BuiltInsAlwaysAccept([DescriptionFactory, ImageFactory, VideoFactory, ImagePlusVideoFactory], m);
  }
}
