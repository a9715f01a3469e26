/** The media gallery with its full-screen carousel
    (src/components/image-carousel.tsx): which files count as videos, how
    the `media`/`images` props become the list of items, what each item
    renders as, and the open/closed state with the current index that the
    click and keyboard handlers change. Scrolling itself belongs to the
    carousel library; a key handler returns the scroll it asks for. */
module ImageCarousel {
  import opened JsCore

  /** The file extensions that mark an address as a video. */
  const VideoExtensions: seq<string> := [".mp4", ".webm", ".ogg", ".mov", ".avi"]

  /** `isVideoFile`: the lower-cased address contains a video extension
      anywhere, not only at its end. */
  function IsVideoFile(url: string): (r: bool)
    ensures r <==> exists ext, i :: ext in VideoExtensions && OccursAt(ToLower(url), ext, i)
  {
    exists k :: 0 <= k < |VideoExtensions| && Includes(ToLower(url), VideoExtensions[k])
  }

  /** Detection ignores case: an address and its upper-cased form agree. */
  lemma {:induction false} VideoDetectionIgnoresCase(url: string)
    ensures IsVideoFile(ToUpper(url)) == IsVideoFile(url)
  {
    LowerOfUpper(url);
  }

  /** A video extension in the middle of an address, followed by anything
      (a query, a fragment), still marks a video. */
  lemma {:induction false} VideoExtensionAnywhere(before: string, ext: string, after: string)
    requires ext in VideoExtensions
    ensures IsVideoFile(before + ext + after)
  {
    var url := before + ext + after;
    var lower := ToLower(url);
    forall k | 0 <= k < |ext| ensures lower[|before| + k] == ext[k] {
      assert url[|before| + k] == ext[k];
      assert !IsAsciiUpper(ext[k]);
    }
    assert lower[|before|..|before| + |ext|] == ext;
    assert OccursAt(lower, ext, |before|);
  }

  // ---------------------------------------------------------------------------
  // Media normalisation

  /** A `string[] | string` prop, possibly absent. */
  datatype MediaProp = Absent | Single(url: string) | Many(urls: seq<string>)

  /** JavaScript truthiness of the prop: an absent prop and the empty string
      are falsy; every array, even an empty one, is truthy. */
  predicate PropTruthy(p: MediaProp)
  {
    p.Many? || (p.Single? && p.url != "")
  }

  /** The items of one prop: an array as it is, anything else wrapped in a
      one-element array (an absent prop becomes `[undefined]`). */
  function ItemsOf(p: MediaProp): (items: seq<Option<string>>)
    ensures p.Many? ==> |items| == |p.urls| && forall i :: 0 <= i < |items| ==> items[i] == Some(p.urls[i])
    ensures p.Single? ==> items == [Some(p.url)]
    ensures p.Absent? ==> items == [None]
  {
    match p
    case Many(urls) => seq(|urls|, i requires 0 <= i < |urls| => Some(urls[i]))
    case Single(url) => [Some(url)]
    case Absent => [None]
  }

  /** `mediaArray`: the items of `media` when it is truthy, of `images` otherwise. */
  function MediaArray(media: MediaProp, images: MediaProp): (items: seq<Option<string>>)
    ensures PropTruthy(media) ==> items == ItemsOf(media)
    ensures !PropTruthy(media) ==> items == ItemsOf(images)
    ensures |items| == 0 <==> (if PropTruthy(media) then media else images) == Many([])
  {
    ItemsOf(if PropTruthy(media) then media else images)
  }

  /** `images` is only a fallback: a truthy `media` hides it completely, and
      without either prop the gallery has one empty item. */
  lemma {:induction false} MediaPreferred(media: MediaProp, images: MediaProp)
    ensures PropTruthy(media) ==> MediaArray(media, images) == MediaArray(media, Absent)
    ensures MediaArray(Absent, Absent) == [None]
    ensures MediaArray(Single(""), Absent) == [None]
  {
  }

  // ---------------------------------------------------------------------------
  // renderMediaItem

  /** What one item renders as. */
  datatype MediaView = NoMedia | Video(src: string) | Image(src: string, alt: string)

  /** `renderMediaItem`: a placeholder for a missing or empty address, a
      looping muted video for a video file, an image otherwise. */
  function RenderMediaItem(url: Option<string>, alt: string): (view: MediaView)
    ensures view.NoMedia? <==> !Truthy(url)
    ensures view.Video? <==> Truthy(url) && IsVideoFile(url.value)
    ensures view.Image? <==> Truthy(url) && !IsVideoFile(url.value)
    ensures view.Video? ==> view.src == url.value
    ensures view.Image? ==> view.src == url.value && view.alt == alt
  {
    if !Truthy(url) then NoMedia
    else if IsVideoFile(url.value) then Video(url.value)
    else Image(url.value, alt)
  }

  // ---------------------------------------------------------------------------
  // The carousel state

  /** What a key press did. */
  datatype KeyEffect = Ignored | ScrollPrevious | ScrollNext | Closed

  class Lightbox {
    const items: seq<Option<string>>
    var isOpen: bool
    var currentIndex: nat

    /** The index names an item, or is the initial 0. */
    ghost predicate Valid()
      reads this
    {
      currentIndex == 0 || currentIndex < |items|
    }

    constructor (items: seq<Option<string>>)
      ensures this.items == items
      ensures !isOpen && currentIndex == 0
      ensures Valid()
    {
      this.items := items;
      isOpen := false;
      currentIndex := 0;
    }

    /** `openCarousel(index)`: open at the clicked item. */
    method Open(index: nat)
      requires index < |items|
      modifies this
      ensures isOpen && currentIndex == index
      ensures Valid()
    {
      currentIndex := index;
      isOpen := true;
    }

    /** `closeCarousel`: close, keeping the index. */
    method Close()
      modifies this`isOpen
      ensures !isOpen
    {
      isOpen := false;
    }

    /** The carousel reports the item it scrolled to. */
    method Select(snap: nat)
      requires snap < |items|
      modifies this`currentIndex
      ensures currentIndex == snap
      ensures Valid()
    {
      currentIndex := snap;
    }

    /** The key handler: nothing while closed; `Escape` closes; the arrow
        keys ask for the previous or next item; other keys do nothing. The
        index only changes through `Select`. */
    method HandleKey(key: string) returns (effect: KeyEffect)
      modifies this`isOpen
      ensures !old(isOpen) ==> effect == Ignored && !isOpen
      ensures old(isOpen) && key == "Escape" ==> effect == Closed && !isOpen
      ensures old(isOpen) && key == "ArrowLeft" ==> effect == ScrollPrevious && isOpen
      ensures old(isOpen) && key == "ArrowRight" ==> effect == ScrollNext && isOpen
      ensures old(isOpen) && key != "Escape" && key != "ArrowLeft" && key != "ArrowRight" ==>
        effect == Ignored && isOpen
    {
      if !isOpen {
        return Ignored;
      }
      if key == "ArrowLeft" {
        effect := ScrollPrevious;
      } else if key == "ArrowRight" {
        effect := ScrollNext;
      } else if key == "Escape" {
        Close();
        effect := Closed;
      } else {
        effect := Ignored;
      }
    }

    /** The counter under the open carousel: the 1-based position of the
        current item and the number of items. */
    function Counter(): (c: (nat, nat))
      reads this
      ensures c.1 == |items| && c.0 == currentIndex + 1
      ensures Valid() && items != [] ==> 1 <= c.0 <= c.1
    {
      (currentIndex + 1, |items|)
    }
  }

  /** A session on a gallery: open at an item, scroll, close; the counter
      stays within bounds throughout and closing keeps the position. */
  method OpenScrollClose(items: seq<Option<string>>, index: nat, snap: nat) returns (box: Lightbox)
    requires index < |items| && snap < |items|
    ensures !box.isOpen && box.currentIndex == snap
    ensures 1 <= box.Counter().0 <= box.Counter().1 == |items|
  {
    box := new Lightbox(items);
    box.Open(index);
    var effect := box.HandleKey("ArrowRight");
    assert effect == ScrollNext && box.isOpen;
    box.Select(snap);
    effect := box.HandleKey("Escape");
    assert effect == Closed;
    effect := box.HandleKey("ArrowLeft");
    assert effect == Ignored;
  }
}
