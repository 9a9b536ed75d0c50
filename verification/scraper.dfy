/**
 * The string and URL handling of scraper.py.
 *
 * HTTP requests and HTML parsing are not modelled: a page that could not be
 * fetched or parsed is `None`, a parsed page is the sequence of the elements
 * the parser found, in document order, with the attributes that are read.
 */
module Scraper {
  import opened Wrappers

  /** An `<img>` element: its `src` and `alt` attributes, `None` where the tag lacks one. */
  datatype Image = Image(src: Option<string>, alt: Option<string>)

  /** A `<button class="btn btn-primary">` element: its `id` attribute, `None` where it lacks one. */
  datatype Button = Button(id: Option<string>)

  /** The text that marks an image as a camera view in its `alt` attribute. */
  const VIEW_FROM: string := "View from"

  /** The directory every downloaded image is saved under. */
  const IMAGE_ROOT: string := "traffic_images"

  /** Python's `pattern in text` for strings: `pattern` occurs somewhere in `text`. */
  predicate Contains(text: string, pattern: string)
    decreases |text|
  {
    pattern <= text || (text != [] && Contains(text[1..], pattern))
  }

  lemma {:induction false} ContainsAt(text: string, pattern: string)
    ensures Contains(text, pattern) <==> exists i :: 0 <= i <= |text| && pattern <= text[i..]
    decreases |text|
  {
    if pattern <= text {
      assert text[0..] == text;
    } else if text == [] {
    } else {
      ContainsAt(text[1..], pattern);
      if exists i :: 0 <= i <= |text| && pattern <= text[i..] {
        var i :| 0 <= i <= |text| && pattern <= text[i..];
        assert i != 0 by { assert text[0..] == text; }
        assert text[1..][i - 1..] == text[i..];
      }
      if Contains(text[1..], pattern) {
        var i :| 0 <= i <= |text[1..]| && pattern <= text[1..][i..];
        assert text[1..][i..] == text[i + 1..];
      }
    }
  }

  /** The test of `fetch_camera_images`: a non-empty `src` and an `alt` (missing counts as "") mentioning "View from". */
  predicate IsCameraView(img: Image)
  {
    img.src.Some? && img.src.value != "" && Contains(img.alt.GetOr(""), VIEW_FROM)
  }

  /** A protocol-relative (network-path) reference is turned into an `http:` URL; any other source is kept. */
  function AbsoluteSrc(src: string): (url: string)
    ensures !("//" <= url)
    ensures "//" <= src ==> url == "http:" + src
    ensures !("//" <= src) ==> url == src
  {
    if "//" <= src then
      var url := "http:" + src;
      assert url[0] == 'h';
      url
    else src
  }

  /** The image URLs `fetch_camera_images` returns for a parsed page, in document order. */
  function ImageUrls(imgs: seq<Image>): (urls: seq<string>)
  {
    if imgs == [] then []
    else
      var last := imgs[|imgs| - 1];
      ImageUrls(imgs[..|imgs| - 1]) + (if IsCameraView(last) then [AbsoluteSrc(last.src.value)] else [])
  }

  /** `fetch_camera_images`: the loop that collects the camera-view sources; `[]` when the page failed. */
  method FetchCameraImages(page: Option<seq<Image>>) returns (urls: seq<string>)
    ensures page.None? ==> urls == []
    ensures page.Some? ==> urls == ImageUrls(page.value)
  {
    urls := [];
    if page.None? {
      return;
    }
    var images := page.value;
    var i := 0;
    while i < |images|
      invariant 0 <= i <= |images|
      invariant urls == ImageUrls(images[..i])
    {
      var img := images[i];
      assert images[..i + 1][..i] == images[..i];
      if img.src.Some? && img.src.value != "" && Contains(img.alt.GetOr(""), VIEW_FROM) {
        var src := img.src.value;
        src := if "//" <= src then "http:" + src else src;
        urls := urls + [src];
      }
      i := i + 1;
    }
    assert images[..i] == images;
  }

  /** An image without an `alt` attribute is never taken for a camera view. */
  lemma MissingAltExcluded(img: Image)
    requires img.alt.None?
    ensures !IsCameraView(img)
  {
  }

  /** The URLs of consecutive parts of a page are those of the parts, in order. */
  lemma {:induction false} ImageUrlsAppend(a: seq<Image>, b: seq<Image>)
    ensures ImageUrls(a + b) == ImageUrls(a) + ImageUrls(b)
    decreases |b|
  {
    if b == [] {
      assert a + b == a;
    } else {
      var u := a + b;
      assert u[..|u| - 1] == a + b[..|b| - 1];
      ImageUrlsAppend(a, b[..|b| - 1]);
    }
  }

  /** One image yields its rewritten source if it is a camera view and nothing otherwise. */
  lemma ImageUrlsSingle(img: Image)
    ensures ImageUrls([img]) == if IsCameraView(img) then [AbsoluteSrc(img.src.value)] else []
  {
  }

  /**
   * No emitted URL is protocol-relative, and there is never more than one URL
   * per image.
   */
  lemma {:induction false} ImageUrlsWellFormed(imgs: seq<Image>)
    ensures |ImageUrls(imgs)| <= |imgs|
    ensures forall k :: 0 <= k < |ImageUrls(imgs)| ==> !("//" <= ImageUrls(imgs)[k])
  {
    if imgs != [] {
      ImageUrlsWellFormed(imgs[..|imgs| - 1]);
    }
  }

  /** A URL is emitted exactly when some camera-view image has it as its rewritten source. */
  lemma {:induction false} ImageUrlsMembership(imgs: seq<Image>, url: string)
    ensures url in ImageUrls(imgs) <==> exists k :: 0 <= k < |imgs| && EmitsUrl(imgs[k], url)
  {
    if imgs != [] {
      var init, last := imgs[..|imgs| - 1], imgs[|imgs| - 1];
      ImageUrlsMembership(init, url);
      assert ImageUrls(imgs) == ImageUrls(init) + (if IsCameraView(last) then [AbsoluteSrc(last.src.value)] else []);
      if exists k :: 0 <= k < |init| && EmitsUrl(init[k], url) {
        var k :| 0 <= k < |init| && EmitsUrl(init[k], url);
        assert imgs[k] == init[k];
      }
      if exists k :: 0 <= k < |imgs| && EmitsUrl(imgs[k], url) {
        var k :| 0 <= k < |imgs| && EmitsUrl(imgs[k], url);
        if k < |init| {
          assert init[k] == imgs[k];
        }
      }
    }
  }

  /** `img` is a camera view whose rewritten source is `url`. */
  predicate EmitsUrl(img: Image, url: string)
  {
    IsCameraView(img) && url == AbsoluteSrc(img.src.value)
  }

  /** The camera ids of the buttons in order, `None` as soon as one button lacks an `id`. */
  function ButtonIds(buttons: seq<Button>): (ids: Option<seq<string>>)
    ensures ids.Some? <==> forall k :: 0 <= k < |buttons| ==> buttons[k].id.Some?
    ensures ids.Some? ==> |ids.value| == |buttons|
    ensures ids.Some? ==> forall k :: 0 <= k < |buttons| ==> ids.value[k] == buttons[k].id.value
  {
    if buttons == [] then Some([])
    else
      var last := buttons[|buttons| - 1];
      match ButtonIds(buttons[..|buttons| - 1])
      case None => None
      case Some(init) => if last.id.None? then None else Some(init + [last.id.value])
  }

  /**
   * `fetch_traffic_cameras`: the `id` of every matched button, in order. A
   * button without an `id` raises inside the comprehension and, like a page
   * that could not be fetched, makes the whole result `[]`.
   */
  function FetchTrafficCameras(page: Option<seq<Button>>): (ids: seq<string>)
    ensures page.None? ==> ids == []
    ensures page.Some? && (exists k :: 0 <= k < |page.value| && page.value[k].id.None?) ==> ids == []
    ensures page.Some? && (forall k :: 0 <= k < |page.value| ==> page.value[k].id.Some?) ==>
      |ids| == |page.value| && forall k :: 0 <= k < |ids| ==> ids[k] == page.value[k].id.value
  {
    match page
    case None => []
    case Some(buttons) => ButtonIds(buttons).GetOr([])
  }

  /** Python's `url.split('/')[-1]`: the text after the final `/`, or all of `url` when it has none. */
  function LastSegment(url: string): (segment: string)
    ensures '/' !in segment
    ensures |segment| <= |url| && url[|url| - |segment|..] == segment
    ensures |segment| < |url| ==> url[|url| - |segment| - 1] == '/'
  {
    if url == [] then ""
    else if url[|url| - 1] == '/' then ""
    else LastSegment(url[..|url| - 1]) + [url[|url| - 1]]
  }

  /** `os.path.join(a, b)` on POSIX: an absolute `b` replaces `a`, otherwise a single `/` separates them. */
  function PathJoin(a: string, b: string): (path: string)
    ensures |b| <= |path| && path[|path| - |b|..] == b
    ensures a != "" ==> path != ""
  {
    if "/" <= b then b
    else if a == "" || a[|a| - 1] == '/' then a + b
    else a + "/" + b
  }

  /**
   * `download_image`: the path the image is saved at, `traffic_images/<location>/<last URL segment>`,
   * or "" when downloading or saving failed (`saved` is false).
   */
  function DownloadImage(url: string, location: string, saved: bool): (path: string)
    ensures path != "" <==> saved
    ensures saved ==> |LastSegment(url)| <= |path| && path[|path| - |LastSegment(url)|..] == LastSegment(url)
  {
    if saved then
      var directory := PathJoin(IMAGE_ROOT, location);
      PathJoin(directory, LastSegment(url))
    else ""
  }

  /** For a plain relative location name the file lands in that location's directory under its own name. */
  lemma SavedPathShape(url: string, location: string)
    requires location != "" && location[0] != '/' && location[|location| - 1] != '/'
    ensures DownloadImage(url, location, true) == IMAGE_ROOT + "/" + location + "/" + LastSegment(url)
  {
    assert !("/" <= location);
    var dir := IMAGE_ROOT + "/" + location;
    assert PathJoin(IMAGE_ROOT, location) == dir;
    assert dir[|dir| - 1] == location[|location| - 1];
    var segment := LastSegment(url);
    assert segment != [] ==> segment[0] != '/';
    assert PathJoin(dir, segment) == dir + "/" + segment;
  }
}
