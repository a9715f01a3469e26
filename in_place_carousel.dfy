/** The in-page carousel of images and videos
    (src/components/in-place-carousel.tsx): the YouTube id extraction, what
    each item renders as, and the page dots under the carousel. */
module InPlaceCarousel {
  import opened JsCore
  import opened SiteTypes

  // ---------------------------------------------------------------------------
  // getYouTubeVideoId

  /** One alternative of `(youtu.be\/|v\/|u\/\w\/|embed\/|watch\?v=|&v=)`,
      `n` characters long, matches at `p`. */
  predicate YouTubeMarkerAt(s: string, p: nat, n: nat)
  {
    p + n <= |s| &&
    ((n == 9 && s[p..p + 5] == "youtu" && !IsLineTerminator(s[p + 5]) && s[p + 6..p + 9] == "be/")
     || (n == 2 && s[p..p + 2] == "v/")
     || (n == 4 && s[p..p + 2] == "u/" && IsWordChar(s[p + 2]) && s[p + 3] == '/')
     || (n == 6 && s[p..p + 6] == "embed/")
     || (n == 8 && s[p..p + 8] == "watch?v=")
     || (n == 3 && s[p..p + 3] == "&v="))
  }

  /** The length of the marker of `^.*(youtu.be\/|v\/|u\/\w\/|embed\/|watch\?v=|&v=)`
      that starts at `p`, 0 for none. The `.` of `youtu.be` is the regex
      wildcard: any character but a line terminator. At most one marker can
      start at a position, since their first letters differ. */
  function MarkerLength(s: string, p: nat): (len: nat)
    ensures len > 0 ==> p + len <= |s|
    ensures len > 0 ==> forall k :: p <= k < p + len ==> !IsLineTerminator(s[k])
    ensures len > 0 ==>
      (len == 9 && s[p] == 'y' && s[p + 1] == 'o' && s[p + 8] == '/') ||
      (len == 2 && s[p] == 'v' && s[p + 1] == '/') ||
      (len == 4 && s[p] == 'u' && s[p + 1] == '/' && s[p + 3] == '/') ||
      (len == 6 && s[p] == 'e' && s[p + 1] == 'm' && s[p + 5] == '/') ||
      (len == 8 && s[p] == 'w' && s[p + 5] == '?' && s[p + 6] == 'v' && s[p + 7] == '=') ||
      (len == 3 && s[p] == '&' && s[p + 1] == 'v' && s[p + 2] == '=')
    ensures len > 0 ==> YouTubeMarkerAt(s, p, len)
    ensures forall n :: YouTubeMarkerAt(s, p, n) ==> n == len
  {
    MarkerUnique(s, p);
    if p + 9 <= |s| && s[p..p + 5] == "youtu" && !IsLineTerminator(s[p + 5]) && s[p + 6..p + 9] == "be/" then
      assert s[p] == s[p..p + 5][0] && s[p + 1] == s[p..p + 5][1] && s[p + 8] == s[p + 6..p + 9][2];
      9
    else if p + 2 <= |s| && s[p..p + 2] == "v/" then
      assert s[p] == s[p..p + 2][0] && s[p + 1] == s[p..p + 2][1];
      2
    else if p + 4 <= |s| && s[p..p + 2] == "u/" && IsWordChar(s[p + 2]) && s[p + 3] == '/' then
      assert s[p] == s[p..p + 2][0] && s[p + 1] == s[p..p + 2][1];
      4
    else if p + 6 <= |s| && s[p..p + 6] == "embed/" then
      assert s[p] == s[p..p + 6][0] && s[p + 1] == s[p..p + 6][1] && s[p + 5] == s[p..p + 6][5];
      assert forall k :: p <= k < p + 6 ==> s[k] == "embed/"[k - p];
      6
    else if p + 8 <= |s| && s[p..p + 8] == "watch?v=" then
      assert forall k :: p <= k < p + 8 ==> s[k] == "watch?v="[k - p];
      8
    else if p + 3 <= |s| && s[p..p + 3] == "&v=" then
      assert forall k :: p <= k < p + 3 ==> s[k] == "&v="[k - p];
      3
    else 0
  }

  /** The first character of the marker `n` characters long. */
  function MarkerHead(n: nat): char
  {
    if n == 9 then 'y' else if n == 2 then 'v' else if n == 4 then 'u'
    else if n == 6 then 'e' else if n == 8 then 'w' else '&'
  }

  lemma {:induction false} MarkerHeadAt(s: string, p: nat, n: nat)
    requires YouTubeMarkerAt(s, p, n)
    ensures n == 9 || n == 2 || n == 4 || n == 6 || n == 8 || n == 3
    ensures s[p] == MarkerHead(n)
  {
    if n == 9 || n == 2 || n == 4 {
      assert s[p] == s[p..p + (if n == 9 then 5 else 2)][0];
    } else {
      assert s[p] == s[p..p + n][0];
    }
  }

  /** At most one marker starts at a position, since their first letters differ. */
  lemma {:induction false} MarkerUnique(s: string, p: nat)
    ensures forall n, m :: YouTubeMarkerAt(s, p, n) && YouTubeMarkerAt(s, p, m) ==> n == m
  {
    forall n, m | YouTubeMarkerAt(s, p, n) && YouTubeMarkerAt(s, p, m) ensures n == m {
      MarkerHeadAt(s, p, n);
      MarkerHeadAt(s, p, m);
    }
  }

  /** The first line terminator of `s` at or after `i`, or `|s|`: the greedy
      `.*` before the marker cannot reach past it. */
  function LineEnd(s: string, i: nat): (e: nat)
    requires i <= |s|
    ensures i <= e <= |s|
    ensures forall k :: i <= k < e ==> !IsLineTerminator(s[k])
    ensures e < |s| ==> IsLineTerminator(s[e])
    decreases |s| - i
  {
    if i == |s| || IsLineTerminator(s[i]) then i else LineEnd(s, i + 1)
  }

  /** The rightmost marker start at or below `p`, which is where the greedy
      `.*` gives way. */
  function LastMarker(s: string, p: nat): (r: Option<nat>)
    requires p <= |s|
    ensures r.Some? ==> r.value <= p && MarkerLength(s, r.value) > 0
    ensures r.Some? ==> forall q :: r.value < q <= p ==> MarkerLength(s, q) == 0
    ensures r.None? ==> forall q :: 0 <= q <= p ==> MarkerLength(s, q) == 0
  {
    if MarkerLength(s, p) > 0 then Some(p)
    else if p == 0 then None
    else LastMarker(s, p - 1)
  }

  /** The characters the capture `[^#&?]*` stops at. */
  predicate IsIdStop(c: char)
  {
    c == '#' || c == '&' || c == '?'
  }

  /** Where the greedy capture `[^#&?]*` that starts at `i` ends. */
  function RunEnd(s: string, i: nat): (e: nat)
    requires i <= |s|
    ensures i <= e <= |s|
    ensures forall k :: i <= k < e ==> !IsIdStop(s[k])
    ensures e < |s| ==> IsIdStop(s[e])
    decreases |s| - i
  {
    if i == |s| || IsIdStop(s[i]) then i else RunEnd(s, i + 1)
  }

  /** The second group of the match: the run after the rightmost marker
      of the first line, if there is a marker. */
  function IdGroup(url: string): (g: Option<string>)
    ensures g.Some? ==> forall c :: c in g.value ==> !IsIdStop(c)
  {
    match LastMarker(url, LineEnd(url, 0))
    case None => None
    case Some(p) =>
      var start := p + MarkerLength(url, p);
      var end := RunEnd(url, start);
      assert forall c :: c in url[start..end] ==> !IsIdStop(c);
      Some(url[start..end])
  }

  /** `getYouTubeVideoId`: the captured id when it has exactly 11
      characters, none otherwise. */
  function GetYouTubeVideoId(url: string): (id: Option<string>)
    ensures id.Some? ==> |id.value| == 11
    ensures id.Some? ==> forall c :: c in id.value ==> c != '#' && c != '&' && c != '?'
    ensures id.Some? <==> IdGroup(url).Some? && |IdGroup(url).value| == 11
    ensures id.Some? ==> id == IdGroup(url)
  {
    match IdGroup(url)
    case Some(g) => if |g| == 11 then Some(g) else None
    case None => None
  }

  // ---------------------------------------------------------------------------
  // Embed addresses

  const EmbedPrefix: string := "https://www.youtube.com/embed/"
  const EmbedQuery: string := "?autoplay=1&mute=1&loop=1"

  /** The iframe address of a YouTube video. */
  function EmbedUrl(id: string): (url: string)
    ensures |url| == |EmbedPrefix| + |id| + |EmbedQuery|
    ensures url[..|EmbedPrefix|] == EmbedPrefix && url[|EmbedPrefix|..|EmbedPrefix| + |id|] == id
    ensures url[|EmbedPrefix| + |id|..] == EmbedQuery
  {
    EmbedPrefix + id + EmbedQuery
  }

  /** The characters of real YouTube ids. */
  predicate IsIdChar(c: char)
  {
    IsWordChar(c) || c == '-'
  }

  /** Characters of an id are none of those the markers and the capture
      care about. */
  lemma {:induction false} IdCharIsPlain(c: char)
    requires IsIdChar(c)
    ensures c != '/' && c != '=' && c != '?' && c != '&' && c != '#' && !IsLineTerminator(c)
  {
  }

  /** No marker starts in the rest of `embed/`. */
  lemma {:induction false} NoMarkerInEmbedTail(s: string, q: nat)
    requires |s| == 66 && s[..30] == EmbedPrefix && 24 < q < 30
    ensures MarkerLength(s, q) == 0
  {
    assert s[25] == EmbedPrefix[25] == 'm' && s[26] == EmbedPrefix[26] == 'b';
    assert s[27] == EmbedPrefix[27] == 'e' && s[28] == EmbedPrefix[28] == 'd' && s[29] == EmbedPrefix[29] == '/';
  }

  /** No marker starts inside a well-formed id. */
  lemma {:induction false} NoMarkerInId(s: string, q: nat)
    requires |s| == 66 && s[41..] == EmbedQuery && 30 <= q < 41
    requires forall k :: 30 <= k < 41 ==> IsIdChar(s[k])
    ensures MarkerLength(s, q) == 0
  {
    assert forall k :: 41 <= k < 66 ==> s[k] == EmbedQuery[k - 41];
    forall k | 30 <= k < 41 ensures s[k] != '/' && s[k] != '=' && s[k] != '?' {
      IdCharIsPlain(s[k]);
    }
  }

  /** No marker starts in the query of an embed address. */
  lemma {:induction false} NoMarkerInQuery(s: string, q: nat)
    requires |s| == 66 && s[41..] == EmbedQuery && 41 <= q <= 66
    ensures MarkerLength(s, q) == 0
  {
    if q < 66 {
      var i := q - 41;
      QueryCharsStartNoMarker(i);
      assert s[q] == EmbedQuery[i];
      if q + 1 < 66 {
        assert s[q + 1] == EmbedQuery[i + 1];
      }
    }
  }

  /** No character of the embed query begins a marker: the first
      characters of the markers either do not occur in it or are followed
      by the wrong character. */
  lemma {:induction false} QueryCharsStartNoMarker(i: nat)
    requires i < |EmbedQuery|
    ensures EmbedQuery[i] != 'v' && EmbedQuery[i] != 'w'
    ensures EmbedQuery[i] == 'y' ==> i + 1 < |EmbedQuery| && EmbedQuery[i + 1] != 'o'
    ensures EmbedQuery[i] == 'u' ==> i + 1 < |EmbedQuery| && EmbedQuery[i + 1] != '/'
    ensures EmbedQuery[i] == 'e' ==> i + 1 < |EmbedQuery| && EmbedQuery[i + 1] != 'm'
    ensures EmbedQuery[i] == '&' ==> i + 1 < |EmbedQuery| && EmbedQuery[i + 1] != 'v'
  {
  }

  /** The first line of a one-line address is all of it. */
  lemma {:induction false} LineEndOfLine(s: string, i: nat)
    requires i <= |s| && forall k :: i <= k < |s| ==> !IsLineTerminator(s[k])
    ensures LineEnd(s, i) == |s|
    decreases |s| - i
  {
    if i < |s| {
      LineEndOfLine(s, i + 1);
    }
  }

  /** A marker with none above it up to `top` is the last one. */
  lemma {:induction false} LastMarkerIs(s: string, p: nat, top: nat)
    requires p <= top <= |s| && MarkerLength(s, p) > 0
    requires forall q :: p < q <= top ==> MarkerLength(s, q) == 0
    ensures LastMarker(s, top) == Some(p)
    decreases top - p
  {
    if p < top {
      LastMarkerIs(s, p, top - 1);
    }
  }

  /** The capture ends at the first stop character. */
  lemma {:induction false} RunEndIs(s: string, i: nat, e: nat)
    requires i <= e <= |s|
    requires forall k :: i <= k < e ==> !IsIdStop(s[k])
    requires e < |s| ==> IsIdStop(s[e])
    ensures RunEnd(s, i) == e
    decreases e - i
  {
    if i < e {
      RunEndIs(s, i + 1, e);
    }
  }

  /** The group of a one-line address whose last marker starts at `p` is
      the run from the marker's end to `end`. */
  lemma {:induction false} GroupAfterLastMarker(s: string, p: nat, end: nat)
    requires forall k :: 0 <= k < |s| ==> !IsLineTerminator(s[k])
    requires p <= |s| && MarkerLength(s, p) > 0
    requires forall q :: p < q <= |s| ==> MarkerLength(s, q) == 0
    requires p + MarkerLength(s, p) <= end <= |s|
    requires forall k :: p + MarkerLength(s, p) <= k < end ==> !IsIdStop(s[k])
    requires end < |s| ==> IsIdStop(s[end])
    ensures IdGroup(s) == Some(s[p + MarkerLength(s, p)..end])
  {
    LineEndOfLine(s, 0);
    LastMarkerIs(s, p, |s|);
    RunEndIs(s, p + MarkerLength(s, p), end);
  }

  /** No marker starts after the `embed/` of an embed address. */
  lemma {:induction false} NoMarkerAfterEmbed(s: string)
    requires |s| == 66 && s[..30] == EmbedPrefix && s[41..] == EmbedQuery
    requires forall k :: 30 <= k < 41 ==> IsIdChar(s[k])
    ensures forall q :: 24 < q <= 66 ==> MarkerLength(s, q) == 0
  {
    forall q | 24 < q <= 66 ensures MarkerLength(s, q) == 0 {
      if q < 30 {
        NoMarkerInEmbedTail(s, q);
      } else if q < 41 {
        NoMarkerInId(s, q);
      } else {
        NoMarkerInQuery(s, q);
      }
    }
  }

  /** The characters of an embed address, region by region. */
  lemma {:induction false} EmbedUrlShape(id: string)
    requires |id| == 11 && forall c :: c in id ==> IsIdChar(c)
    ensures var s := EmbedUrl(id);
      |s| == 66 && s[..30] == EmbedPrefix && s[30..41] == id && s[41..] == EmbedQuery &&
      (forall k :: 0 <= k < 66 ==> !IsLineTerminator(s[k])) &&
      (forall k :: 30 <= k < 41 ==> IsIdChar(s[k]) && !IsIdStop(s[k])) &&
      IsIdStop(s[41])
  {
    var s := EmbedUrl(id);
    forall k | 30 <= k < 41 ensures IsIdChar(s[k]) && !IsLineTerminator(s[k]) && !IsIdStop(s[k]) {
      assert s[k] == id[k - 30];
      IdCharIsPlain(s[k]);
    }
    assert forall k :: 0 <= k < 30 ==> s[k] == EmbedPrefix[k];
    assert forall k :: 41 <= k < 66 ==> s[k] == EmbedQuery[k - 41];
  }

  /** The `embed/` marker of an embed address. */
  lemma {:induction false} EmbedMarker(s: string)
    requires |s| == 66 && s[..30] == EmbedPrefix
    ensures MarkerLength(s, 24) == 6
  {
    assert s[24..30] == EmbedPrefix[24..30] == "embed/";
  }

  /** Reading the id back from the embed address of a well-formed id gives
      that id. */
  lemma {:induction false} EmbedUrlRoundTrip(id: string)
    requires |id| == 11 && forall c :: c in id ==> IsIdChar(c)
    ensures GetYouTubeVideoId(EmbedUrl(id)) == Some(id)
  {
    var s := EmbedUrl(id);
    EmbedUrlShape(id);
    NoMarkerAfterEmbed(s);
    EmbedMarker(s);
    GroupAfterLastMarker(s, 24, 41);
  }

  /** A short-link address: the `.` of `youtu.be` matches any character. */
  lemma {:induction false} ShortLinkId(sep: char, id: string)
    requires !IsLineTerminator(sep)
    requires |id| == 11 && forall c :: c in id ==> IsIdChar(c)
    ensures GetYouTubeVideoId("youtu" + [sep] + "be/" + id) == Some(id)
  {
    var s := "youtu" + [sep] + "be/" + id;
    assert s[..9] == "youtu" + [sep] + "be/" && s[9..] == id;
    assert forall k :: 0 <= k < 9 ==> s[k] == ("youtu" + [sep] + "be/")[k];
    forall k | 9 <= k < 20 ensures s[k] != '/' && s[k] != '=' && !IsLineTerminator(s[k]) && !IsIdStop(s[k]) {
      assert s[k] == id[k - 9];
      IdCharIsPlain(s[k]);
    }
    forall q | 0 < q <= 20 ensures MarkerLength(s, q) == 0 {
      if q < 9 {
        NoMarkerInShortLink(s, sep, q);
      } else {
        NoMarkerInPlainTail(s, 9, q);
      }
    }
    assert s[0..5] == "youtu" && s[6..9] == "be/";
    assert MarkerLength(s, 0) == 9;
    GroupAfterLastMarker(s, 0, 20);
    assert |s| == 20 && s[9..20] == id;
  }

  /** No marker starts where no `/` and no `=` follow. */
  lemma {:induction false} NoMarkerInPlainTail(s: string, from: nat, q: nat)
    requires from <= q <= |s|
    requires forall k :: from <= k < |s| ==> s[k] != '/' && s[k] != '='
    ensures MarkerLength(s, q) == 0
  {
  }

  /** No marker starts after the first letter of `youtu?be/`. */
  lemma {:induction false} NoMarkerInShortLink(s: string, sep: char, q: nat)
    requires |s| == 20 && s[..9] == "youtu" + [sep] + "be/" && 0 < q < 9
    requires forall k :: 9 <= k < 20 ==> s[k] != '/' && s[k] != '='
    ensures MarkerLength(s, q) == 0
  {
    assert forall k :: 0 <= k < 9 ==> s[k] == ("youtu" + [sep] + "be/")[k];
  }

  /** An id of the wrong length is refused. */
  lemma {:induction false} ShortIdRefused()
    ensures GetYouTubeVideoId("v/abc") == None
  {
    var s := "v/abc";
    assert s[..2] == "v/" && s[2..] == "abc";
    assert MarkerLength(s, 0) == 2;
    forall q | 0 < q <= 5 ensures MarkerLength(s, q) == 0 {
      if q == 1 {
        assert s[1] == '/';
      } else {
        NoMarkerInPlainTail(s, 2, q);
      }
    }
    GroupAfterLastMarker(s, 0, 5);
  }

  // ---------------------------------------------------------------------------
  // renderCarouselItem

  /** What one carousel item renders as. */
  datatype ItemView =
    | Picture(src: string, alt: string)
    | DirectVideo(src: string)
    | Embed(src: string, title: string)
    | InvalidVideoUrl
    | NoVideoSource

  /** `renderCarouselItem`. */
  function RenderCarouselItem(content: CarouselContent): (view: ItemView)
    ensures content.ImageContent? ==>
      view == Picture(content.src, if Truthy(content.alt) then content.alt.value else "Gallery image")
    ensures content.VideoContent? && Truthy(content.directVideoUrl) ==> view == DirectVideo(content.directVideoUrl.value)
    ensures content.VideoContent? && !Truthy(content.directVideoUrl) && Truthy(content.videoUrl) ==>
      match GetYouTubeVideoId(content.videoUrl.value)
      case Some(id) => view == Embed(EmbedUrl(id), if Truthy(content.title) then content.title.value else "Video")
      case None => view == InvalidVideoUrl
    ensures content.VideoContent? && !Truthy(content.directVideoUrl) && !Truthy(content.videoUrl) ==> view == NoVideoSource
  {
    match content
    case ImageContent(src, alt) => Picture(src, if Truthy(alt) then alt.value else "Gallery image")
    case VideoContent(videoUrl, directVideoUrl, title) =>
      if Truthy(directVideoUrl) then DirectVideo(directVideoUrl.value)
      else if Truthy(videoUrl) then
        match GetYouTubeVideoId(videoUrl.value)
        case Some(id) => Embed(EmbedUrl(id), if Truthy(title) then title.value else "Video")
        case None => InvalidVideoUrl
      else NoVideoSource
  }

  /** A direct video file wins over a YouTube address, whatever that is. */
  lemma {:induction false} DirectVideoFirst(videoUrl: Option<string>, direct: string, title: Option<string>)
    requires direct != ""
    ensures RenderCarouselItem(VideoContent(videoUrl, Some(direct), title)) == DirectVideo(direct)
  {
  }

  /** A YouTube item embeds the video whose id is in its address: the id
      read back from the iframe address is the one from the item. */
  lemma {:induction false} EmbeddedVideoIsTheItems(videoUrl: string, title: Option<string>)
    requires GetYouTubeVideoId(videoUrl).Some?
    requires forall c :: c in GetYouTubeVideoId(videoUrl).value ==> IsIdChar(c)
    ensures var view := RenderCarouselItem(VideoContent(Some(videoUrl), None, title));
      view.Embed? && GetYouTubeVideoId(view.src) == GetYouTubeVideoId(videoUrl)
  {
    EmbedUrlRoundTrip(GetYouTubeVideoId(videoUrl).value);
  }

  // ---------------------------------------------------------------------------
  // Page dots

  /** The page dots: none for a single item (or none), otherwise one per
      item, the one at `currentIndex` active. */
  function PageDots(count: nat, currentIndex: nat): (dots: seq<bool>)
    ensures count <= 1 ==> dots == []
    ensures count > 1 ==> |dots| == count
    ensures forall i :: 0 <= i < |dots| ==> (dots[i] <==> i == currentIndex)
  {
    if count <= 1 then [] else seq(count, i requires 0 <= i < count => i == currentIndex)
  }

  /** The number of active dots. */
  function ActiveCount(dots: seq<bool>): (n: nat)
    ensures n <= |dots|
  {
    if dots == [] then 0 else (if dots[0] then 1 else 0) + ActiveCount(dots[1..])
  }

  /** A sequence whose only true element is at `at` has one active element. */
  lemma {:induction false} ActiveCountSingle(dots: seq<bool>, at: nat)
    requires at < |dots| && forall i :: 0 <= i < |dots| ==> (dots[i] <==> i == at)
    ensures ActiveCount(dots) == 1
  {
    if at == 0 {
      ActiveCountNone(dots[1..]);
    } else {
      ActiveCountSingle(dots[1..], at - 1);
    }
  }

  lemma {:induction false} ActiveCountNone(dots: seq<bool>)
    requires forall i :: 0 <= i < |dots| ==> !dots[i]
    ensures ActiveCount(dots) == 0
  {
    if dots != [] {
      ActiveCountNone(dots[1..]);
    }
  }

  /** With several items and a current index among them, exactly one dot is
      active. */
  lemma {:induction false} OneActiveDot(count: nat, currentIndex: nat)
    requires 1 < count && currentIndex < count
    ensures ActiveCount(PageDots(count, currentIndex)) == 1
  {
    ActiveCountSingle(PageDots(count, currentIndex), currentIndex);
  }

  /** The carousel's state: the index of the item it shows. */
  class Carousel {
    const content: seq<CarouselContent>
    var currentIndex: nat

    constructor (content: seq<CarouselContent>)
      ensures this.content == content && currentIndex == 0
    {
      this.content := content;
      currentIndex := 0;
    }

    /** The carousel reports the item it shows (initially and on every
        `select` event). */
    method Select(snap: nat)
      requires snap < |content|
      modifies this`currentIndex
      ensures currentIndex == snap
    {
      currentIndex := snap;
    }

    function Dots(): (dots: seq<bool>)
      reads this
      ensures dots == PageDots(|content|, currentIndex)
      ensures 1 < |content| && currentIndex < |content| ==> ActiveCount(dots) == 1
    {
      OneActiveDotIf(|content|, currentIndex);
      PageDots(|content|, currentIndex)
    }
  }

  lemma {:induction false} OneActiveDotIf(count: nat, currentIndex: nat)
    ensures 1 < count && currentIndex < count ==> ActiveCount(PageDots(count, currentIndex)) == 1
  {
    if 1 < count && currentIndex < count {
      OneActiveDot(count, currentIndex);
    }
  }
}
