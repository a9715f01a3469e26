/** The news helpers of src/lib/news/utils.ts: the heading slug
    (`headingToUrl`), the table-of-contents extraction (`parseHeadings`) and
    the entry lookup with its excerpt fallback (`getNewsEntry`). Each regular
    expression is stated as the string function it computes. */
module NewsUtils {
  import opened JsCore
  import opened SiteTypes

  // ===========================================================================
  // headingToUrl

  /** The characters `[a-zA-Z0-9-]` the slug keeps. */
  predicate Allowed(c: char)
  {
    IsAsciiUpper(c) || IsAsciiLower(c) || IsDigit(c) || c == '-'
  }

  /** The characters a slug is made of: `[a-z0-9-]`. */
  predicate IsSlugChar(c: char)
  {
    IsAsciiLower(c) || IsDigit(c) || c == '-'
  }

  /** `replace(/[ ]/g, '-')`. */
  function SpacesToHyphens(s: string): string
  {
    if s == [] then [] else [if s[0] == ' ' then '-' else s[0]] + SpacesToHyphens(s[1..])
  }

  /** `headingToUrl`: spaces become hyphens, every character outside
      `[a-zA-Z0-9-]` is dropped, and the rest is lower-cased. */
  function HeadingToUrl(heading: string): (r: string)
    ensures forall c :: c in r ==> IsSlugChar(c)
    ensures |r| <= |heading|
  {
    var hyphenated := SpacesToHyphens(heading);
    SpacesToHyphensLength(heading);
    var kept := Filter(hyphenated, Allowed);
    var r := ToLower(kept);
    assert forall c :: c in r ==> IsSlugChar(c) by {
      forall c | c in r ensures IsSlugChar(c) {
        var i :| 0 <= i < |r| && r[i] == c;
        assert kept[i] in kept;
      }
    }
    r
  }

  lemma {:induction false} SpacesToHyphensLength(s: string)
    ensures |SpacesToHyphens(s)| == |s|
    ensures ' ' !in SpacesToHyphens(s)
  {
    if s != [] {
      SpacesToHyphensLength(s[1..]);
    }
  }

  lemma {:induction false} SpacesToHyphensAppend(a: string, b: string)
    ensures SpacesToHyphens(a + b) == SpacesToHyphens(a) + SpacesToHyphens(b)
  {
    if a != [] {
      var c := if a[0] == ' ' then '-' else a[0];
      assert (a + b)[0] == a[0] && (a + b)[1..] == a[1..] + b;
      SpacesToHyphensAppend(a[1..], b);
      calc {
        SpacesToHyphens(a + b);
        [c] + SpacesToHyphens(a[1..] + b);
        [c] + (SpacesToHyphens(a[1..]) + SpacesToHyphens(b));
        ([c] + SpacesToHyphens(a[1..])) + SpacesToHyphens(b);
        SpacesToHyphens(a) + SpacesToHyphens(b);
      }
    } else {
      assert a + b == b;
    }
  }

  /** Text without spaces passes the first step unchanged. */
  lemma {:induction false} SpacesToHyphensNoSpace(s: string)
    requires ' ' !in s
    ensures SpacesToHyphens(s) == s
  {
    if s != [] {
      SpacesToHyphensNoSpace(s[1..]);
    }
  }

  lemma {:induction false} ToLowerAppend(a: string, b: string)
    ensures ToLower(a + b) == ToLower(a) + ToLower(b)
  {
    var l, la, lb := ToLower(a + b), ToLower(a), ToLower(b);
    var r := la + lb;
    assert |l| == |r|;
    forall i | 0 <= i < |l| ensures l[i] == r[i] {
      if i < |a| {
        assert (a + b)[i] == a[i];
        assert l[i] == LowerChar(a[i]) == la[i] == r[i];
      } else {
        assert (a + b)[i] == b[i - |a|];
        assert l[i] == LowerChar(b[i - |a|]) == lb[i - |a|] == r[i];
      }
    }
  }

  /** The slug of a concatenation is the concatenation of the slugs: each
      character is handled on its own. */
  lemma {:induction false} HeadingToUrlAppend(a: string, b: string)
    ensures HeadingToUrl(a + b) == HeadingToUrl(a) + HeadingToUrl(b)
  {
    SpacesToHyphensAppend(a, b);
    FilterAppend(SpacesToHyphens(a), SpacesToHyphens(b), Allowed);
    ToLowerAppend(Filter(SpacesToHyphens(a), Allowed), Filter(SpacesToHyphens(b), Allowed));
  }

  /** Every space of the heading becomes a hyphen of the slug, between the
      slugs of the text before and after it. */
  lemma {:induction false} HeadingToUrlSpace(a: string, b: string)
    ensures HeadingToUrl(a + " " + b) == HeadingToUrl(a) + "-" + HeadingToUrl(b)
  {
    HeadingToUrlAppend(a + " ", b);
    HeadingToUrlAppend(a, " ");
    assert SpacesToHyphens(" ") == "-";
    assert Filter("-", Allowed) == "-";
  }

  /** A text is its own slug exactly when it is made of `[a-z0-9-]` only. */
  lemma {:induction false} HeadingToUrlFixpoint(s: string)
    ensures HeadingToUrl(s) == s <==> forall c :: c in s ==> IsSlugChar(c)
  {
    if forall c :: c in s ==> IsSlugChar(c) {
      SpacesToHyphensNoSpace(s);
      FilterAll(s, Allowed);
      var r := ToLower(s);
      forall i | 0 <= i < |s| ensures r[i] == s[i] {
        assert s[i] in s;
      }
    }
  }

  /** `headingToUrl` is idempotent. */
  lemma {:induction false} HeadingToUrlIdempotent(s: string)
    ensures HeadingToUrl(HeadingToUrl(s)) == HeadingToUrl(s)
  {
    HeadingToUrlFixpoint(HeadingToUrl(s));
  }

  // ===========================================================================
  // Lines, tags and trimming

  /** The text split at every ECMAScript line terminator: the stretches the
      pattern `.` can match across. */
  function Lines(s: string): (r: seq<string>)
    ensures |r| >= 1
  {
    if s == [] then [""]
    else
      var rest := Lines(s[1..]);
      if IsLineTerminator(s[0]) then [""] + rest
      else [[s[0]] + rest[0]] + rest[1..]
  }

  /** `<h\d>` starts at `i`. */
  predicate OpenTagAt(s: string, i: int)
  {
    0 <= i && i + 4 <= |s| && s[i] == '<' && s[i + 1] == 'h' && IsDigit(s[i + 2]) && s[i + 3] == '>'
  }

  /** `<\/h\d>` starts at `i`. */
  predicate CloseTagAt(s: string, i: int)
  {
    0 <= i && i + 5 <= |s| && s[i] == '<' && s[i + 1] == '/' && s[i + 2] == 'h' && IsDigit(s[i + 3]) && s[i + 4] == '>'
  }

  /** The first position at or after `from` where `at` holds, or -1. */
  function FirstFrom(s: string, at: (string, int) -> bool, from: nat): (r: int)
    requires from <= |s|
    ensures r == -1 || from <= r < |s|
    ensures r == -1 ==> forall i :: from <= i < |s| ==> !at(s, i)
    ensures r >= 0 ==> at(s, r) && forall i :: from <= i < r ==> !at(s, i)
    decreases |s| - from
  {
    if from == |s| then -1
    else if at(s, from) then from
    else FirstFrom(s, at, from + 1)
  }

  /** The last position before `upTo` where `at` holds, or -1. */
  function LastBefore(s: string, at: (string, int) -> bool, upTo: nat): (r: int)
    requires upTo <= |s|
    ensures -1 <= r < upTo
    ensures r == -1 ==> forall i :: 0 <= i < upTo ==> !at(s, i)
    ensures r >= 0 ==> at(s, r) && forall i :: r < i < upTo ==> !at(s, i)
  {
    if upTo == 0 then -1
    else if at(s, upTo - 1) then upTo - 1
    else LastBefore(s, at, upTo - 1)
  }

  /** The match of `/(<h\d>)(.*)<\/h\d>/` within one line: from the first
      opening tag, and, `.*` being greedy, up to the end of the last closing
      tag that starts after it. */
  function TagMatch(line: string): (r: Option<string>)
    ensures r.Some? <==> exists i, j :: OpenTagAt(line, i) && CloseTagAt(line, j) && i + 4 <= j
    ensures r.Some? ==> OpenTagAt(r.value, 0) && CloseTagAt(r.value, |r.value| - 5)
    ensures r.Some? ==>
              var p, c := FirstFrom(line, OpenTagAt, 0), LastBefore(line, CloseTagAt, |line|);
              0 <= p && p + 4 <= c && c + 5 <= |line| && r.value == line[p..c + 5]
  {
    var p := FirstFrom(line, OpenTagAt, 0);
    var c := LastBefore(line, CloseTagAt, |line|);
    TagSpan(line);
    if p >= 0 && c >= p + 4 then
      TagEnds(line, p, c);
      Some(line[p..c + 5])
    else
      None
  }

  /** Some opening tag precedes some closing tag exactly when the first
      opening tag precedes the last closing tag. */
  lemma {:induction false} TagSpan(line: string)
    ensures (exists i, j :: OpenTagAt(line, i) && CloseTagAt(line, j) && i + 4 <= j)
        <==> var p := FirstFrom(line, OpenTagAt, 0); p >= 0 && LastBefore(line, CloseTagAt, |line|) >= p + 4
  {
    var p := FirstFrom(line, OpenTagAt, 0);
    var c := LastBefore(line, CloseTagAt, |line|);
    if exists i, j :: OpenTagAt(line, i) && CloseTagAt(line, j) && i + 4 <= j {
      var i, j :| OpenTagAt(line, i) && CloseTagAt(line, j) && i + 4 <= j;
      TagsBound(line, i, j);
    }
    if p >= 0 && c >= p + 4 {
      assert OpenTagAt(line, p) && CloseTagAt(line, c);
    }
  }

  /** The first opening tag is at or before any opening tag, the last
      closing tag at or after any closing tag. */
  lemma {:induction false} TagsBound(line: string, i: int, j: int)
    requires OpenTagAt(line, i) && CloseTagAt(line, j)
    ensures 0 <= FirstFrom(line, OpenTagAt, 0) <= i
    ensures j <= LastBefore(line, CloseTagAt, |line|)
  {
  }

  /** The span from an opening tag to the end of a later closing tag starts
      and ends with those tags. */
  lemma {:induction false} TagEnds(line: string, p: nat, c: nat)
    requires OpenTagAt(line, p) && CloseTagAt(line, c) && p + 4 <= c
    ensures OpenTagAt(line[p..c + 5], 0) && CloseTagAt(line[p..c + 5], |line[p..c + 5]| - 5)
  {
    var m := line[p..c + 5];
    assert line[p..p + 4] == m[..4];
    assert line[c..c + 5] == m[|m| - 5..];
  }

  /** The length of the run of `c` at the start of `s`. */
  function RunLength(s: string, c: char): (n: nat)
    ensures n <= |s|
    ensures forall i :: 0 <= i < n ==> s[i] == c
    ensures n < |s| ==> s[n] != c
  {
    if s != [] && s[0] == c then 1 + RunLength(s[1..], c) else 0
  }

  /** The `^ *(#{1,4}) ` pattern holds with `n` leading spaces and `k` hashes. */
  predicate MarkerAt(t: string, n: nat, k: nat)
  {
    1 <= k <= 4 && n + k < |t| &&
    (forall i :: 0 <= i < n ==> t[i] == ' ') &&
    (forall i :: n <= i < n + k ==> t[i] == '#') &&
    t[n + k] == ' '
  }

  /** The match of `^ *(#{1,4}) `: the number of leading spaces and of hashes,
      when the hashes (one to four of them) are followed by a space. */
  function MdMarker(t: string): (r: Option<(nat, nat)>)
    ensures r.Some? ==> MarkerAt(t, r.value.0, r.value.1)
    ensures r.None? ==> forall n, k :: !MarkerAt(t, n, k)
  {
    var n := RunLength(t, ' ');
    var k := RunLength(t[n..], '#');
    if 1 <= k <= 4 && n + k < |t| && t[n + k] == ' ' then
      assert forall i :: n <= i < n + k ==> t[i] == t[n..][i - n];
      Some((n, k))
    else
      MarkerDetermined(t);
      None
  }

  /** The spaces and hashes of a marker are the leading runs: the pattern
      can match in one way only. */
  lemma {:induction false} MarkerDetermined(t: string)
    ensures forall n: nat, k: nat :: MarkerAt(t, n, k) ==> n == RunLength(t, ' ') && k == RunLength(t[n..], '#')
  {
    forall n: nat, k: nat | MarkerAt(t, n, k) ensures n == RunLength(t, ' ') && k == RunLength(t[n..], '#') {
      assert t[n] == '#';
      assert forall i :: 0 <= i < k ==> t[n..][i] == '#';
      assert t[n..][k] == ' ';
    }
  }

  /** The match of `/^ *(#{1,4}) (.*)$/m` on one line: the whole line. */
  function MdMatch(line: string): (r: Option<string>)
    ensures r.Some? <==> exists n, k :: MarkerAt(line, n, k)
    ensures r.Some? ==> r.value == line
  {
    if MdMarker(line).Some? then Some(line) else None
  }

  /** `String.prototype.trimStart`. */
  function TrimStart(s: string): (r: string)
    ensures |r| <= |s| && r == s[|s| - |r|..]
    ensures r != [] ==> !IsWhitespace(r[0])
  {
    if s != [] && IsWhitespace(s[0]) then TrimStart(s[1..]) else s
  }

  /** `String.prototype.trimEnd`. */
  function TrimEnd(s: string): (r: string)
    ensures r <= s
    ensures r != [] ==> !IsWhitespace(r[|r| - 1])
  {
    if s != [] && IsWhitespace(s[|s| - 1]) then TrimEnd(s[..|s| - 1]) else s
  }

  /** `String.prototype.trim`: no white space or line terminator at either end. */
  function Trim(s: string): (r: string)
    ensures r != [] ==> !IsWhitespace(r[0]) && !IsWhitespace(r[|r| - 1])
  {
    TrimEnd(TrimStart(s))
  }

  /** Drops the first occurrence of the pattern `at` matches, `len` characters long. */
  function RemoveFirst(s: string, at: (string, int) -> bool, len: nat): (r: string)
    requires forall i :: at(s, i) ==> 0 <= i && i + len <= |s|
    ensures |r| == |s| || |r| == |s| - len
    ensures (forall i :: 0 <= i < |s| ==> !at(s, i)) ==> r == s
  {
    var p := FirstFrom(s, at, 0);
    if p < 0 then s else s[..p] + s[p + len..]
  }

  // ===========================================================================
  // parseHeadings

  datatype Heading = Heading(level: int, text: string, anchor: string)

  /** The tag-style matches of the content, in order. */
  function TagItems(lines: seq<string>): seq<string>
  {
    if lines == [] then []
    else (if TagMatch(lines[0]).Some? then [TagMatch(lines[0]).value] else []) + TagItems(lines[1..])
  }

  /** The Markdown-style matches of the content, in order. */
  function MdItems(lines: seq<string>): seq<string>
  {
    if lines == [] then []
    else (if MdMatch(lines[0]).Some? then [lines[0]] else []) + MdItems(lines[1..])
  }

  /** The numeric value of a decimal digit. */
  function DigitValue(c: char): (d: int)
    requires IsDigit(c)
    ensures 0 <= d <= 9
  {
    c as int - '0' as int
  }

  /** The heading level as the source computes it, before subtracting one:
      the number of `#` of a Markdown marker, else the digit of a leading
      `<h\d>`, else 0. */
  function RawLevel(t: string): (level: int)
    ensures 0 <= level <= 9
  {
    match MdMarker(t)
    case Some((_, k)) => k
    case None => if OpenTagAt(t, 0) then DigitValue(t[2]) else 0
  }

  /** The heading text: the Markdown marker, the first opening tag and the
      first closing tag removed, then trimmed. */
  function HeadingText(t: string): string
  {
    var noMarker := match MdMarker(t) case Some((n, k)) => t[n + k + 1..] case None => t;
    var noOpen := RemoveFirst(noMarker, OpenTagAt, 4);
    var noClose := RemoveFirst(noOpen, CloseTagAt, 5);
    Trim(noClose)
  }

  /** One matched heading: its level minus one, its text and its anchor. */
  function HeadingOf(item: string): (h: Heading)
    ensures -1 <= h.level <= 8
    ensures h.anchor == HeadingToUrl(h.text)
  {
    var trimmed := Trim(item);
    var text := HeadingText(trimmed);
    Heading(RawLevel(trimmed) - 1, text, HeadingToUrl(text))
  }

  function HeadingsOf(items: seq<string>): (hs: seq<Heading>)
    ensures |hs| == |items|
  {
    Map(HeadingOf, items)
  }

  /** A level from -1 to 8 and the anchor of the text. */
  predicate WellFormed(h: Heading)
  {
    -1 <= h.level <= 8 && h.anchor == HeadingToUrl(h.text)
  }

  /** The filter of `parseHeadings`: a non-empty text and a level of at least 0. */
  predicate Kept(h: Heading)
  {
    h.text != "" && h.level >= 0
  }

  /** `parseHeadings`: the tag-style headings, then the Markdown-style ones,
      each turned into a heading, keeping those with text and a level. */
  function ParseHeadings(content: string): (r: seq<Heading>)
    ensures forall h :: h in r ==> h.text != "" && 0 <= h.level <= 8 && h.anchor == HeadingToUrl(h.text)
  {
    var lines := Lines(content);
    var all := HeadingsOf(TagItems(lines) + MdItems(lines));
    var r := Filter(all, Kept);
    MapAll(HeadingOf, TagItems(lines) + MdItems(lines), WellFormed);
    r
  }

  /** All tag-style headings come before all Markdown-style headings. */
  lemma {:induction false} TagHeadingsFirst(content: string)
    ensures ParseHeadings(content)
         == Filter(HeadingsOf(TagItems(Lines(content))), Kept) + Filter(HeadingsOf(MdItems(Lines(content))), Kept)
  {
    var lines := Lines(content);
    MapAppend(HeadingOf, TagItems(lines), MdItems(lines));
    FilterAppend(HeadingsOf(TagItems(lines)), HeadingsOf(MdItems(lines)), Kept);
  }

  /** Every tag-style item starts with `<h\d>` and ends with `<\/h\d>`. */
  lemma {:induction false} TagItemsShape(lines: seq<string>)
    ensures forall m :: m in TagItems(lines) ==> OpenTagAt(m, 0) && CloseTagAt(m, |m| - 5)
  {
    if lines != [] {
      TagItemsShape(lines[1..]);
    }
  }

  /** A tag-style heading gets the digit of its opening tag, minus one, as level. */
  lemma {:induction false} TagHeadingLevel(m: string)
    requires OpenTagAt(m, 0) && CloseTagAt(m, |m| - 5)
    ensures HeadingOf(m).level == DigitValue(m[2]) - 1
  {
    assert !IsWhitespace(m[0]) && !IsWhitespace(m[|m| - 1]);
    assert TrimStart(m) == m;
    assert TrimEnd(m) == m;
    assert m[0] == '<';
  }

  /** `n` copies of `c`. */
  function Repeat(c: char, n: nat): (s: string)
    ensures |s| == n && forall i :: 0 <= i < n ==> s[i] == c
  {
    if n == 0 then [] else [c] + Repeat(c, n - 1)
  }

  lemma {:induction false} TrimStartSpaces(n: nat, t: string)
    ensures TrimStart(Repeat(' ', n) + t) == TrimStart(t)
  {
    if n > 0 {
      var s := Repeat(' ', n) + t;
      assert s[0] == ' ' && IsWhitespace(' ');
      assert s[1..] == Repeat(' ', n - 1) + t;
      assert TrimStart(s) == TrimStart(s[1..]);
      TrimStartSpaces(n - 1, t);
    } else {
      assert Repeat(' ', n) + t == t;
    }
  }

  lemma {:induction false} TrimEndKeepsPrefix(a: string, b: string)
    requires exists i :: 0 <= i < |b| && !IsWhitespace(b[i])
    ensures TrimEnd(a + b) == a + TrimEnd(b)
    decreases |b|
  {
    var s := a + b;
    if IsWhitespace(s[|s| - 1]) {
      assert IsWhitespace(b[|b| - 1]);
      var i :| 0 <= i < |b| && !IsWhitespace(b[i]);
      assert i < |b| - 1;
      assert s[..|s| - 1] == a + b[..|b| - 1];
      assert !IsWhitespace(b[..|b| - 1][i]);
      TrimEndKeepsPrefix(a, b[..|b| - 1]);
    }
  }

  /** Trimming a line of leading spaces, a visible head and a title with a
      visible character drops the spaces and the title's trailing white space. */
  lemma {:induction false} TrimHeadedLine(n: nat, head: string, title: string)
    requires head != [] && !IsWhitespace(head[0])
    requires exists i :: 0 <= i < |title| && !IsWhitespace(title[i])
    ensures Trim(Repeat(' ', n) + (head + title)) == head + TrimEnd(title)
  {
    var marked := head + title;
    assert TrimStart(Repeat(' ', n) + marked) == marked by {
      TrimStartSpaces(n, marked);
      assert marked[0] == head[0];
    }
    TrimEndKeepsPrefix(head, title);
  }

  /** A line of hashes, a space and more text has the hashes as its marker. */
  lemma {:induction false} MdMarkerOfHashes(k: nat, rest: string)
    requires 1 <= k <= 4
    ensures MdMarker(Repeat('#', k) + " " + rest) == Some((0, k))
  {
    var t := Repeat('#', k) + " " + rest;
    assert t[k] == ' ';
    assert MarkerAt(t, 0, k);
    MarkerDetermined(t);
  }

  /** A Markdown heading `   ## Title` is matched whole, and, when its
      title has some visible character, gets the number of its hashes minus
      one as level. */
  lemma {:induction false} MdHeadingLevel(n: nat, k: nat, title: string)
    requires 1 <= k <= 4
    requires exists i :: 0 <= i < |title| && !IsWhitespace(title[i])
    ensures MdMatch(MdLine(n, k, title)) == Some(MdLine(n, k, title))
    ensures HeadingOf(MdLine(n, k, title)).level == k - 1
  {
    MdLineMatches(n, k, title);
    MdLineTrimmed(n, k, title);
    var line := MdLine(n, k, title);
    var trimmed := Repeat('#', k) + " " + TrimEnd(title);
    assert RawLevel(trimmed) == k by {
      MdMarkerOfHashes(k, TrimEnd(title));
    }
    assert HeadingOf(line).level == RawLevel(Trim(line)) - 1;
  }

  lemma {:induction false} MdLineMatches(n: nat, k: nat, title: string)
    requires 1 <= k <= 4
    ensures MdMatch(MdLine(n, k, title)) == Some(MdLine(n, k, title))
  {
    var line := MdLine(n, k, title);
    assert MarkerAt(line, n, k) by {
      assert forall i :: n <= i < n + k ==> line[i] == Repeat('#', k)[i - n];
      assert line[n + k] == ' ';
    }
  }

  lemma {:induction false} MdLineTrimmed(n: nat, k: nat, title: string)
    requires 1 <= k
    requires exists i :: 0 <= i < |title| && !IsWhitespace(title[i])
    ensures Trim(MdLine(n, k, title)) == Repeat('#', k) + " " + TrimEnd(title)
  {
    var line := MdLine(n, k, title);
    var head := Repeat('#', k) + " ";
    assert line == Repeat(' ', n) + (head + title);
    TrimHeadedLine(n, head, title);
  }

  /** A Markdown heading line: `n` spaces, `k` hashes, a space and the title. */
  function MdLine(n: nat, k: nat, title: string): string
  {
    Repeat(' ', n) + Repeat('#', k) + " " + title
  }

  /** A heading title that survives trimming whole and is alone on its line:
      visible at both ends, without line terminators and without `<`. */
  predicate PlainTitle(title: string)
  {
    title != [] && !IsWhitespace(title[0]) && !IsWhitespace(title[|title| - 1]) &&
    forall i :: 0 <= i < |title| ==> title[i] != '<' && !IsLineTerminator(title[i])
  }

  /** Text without line terminators is one line. */
  lemma {:induction false} LinesOfOneLine(s: string)
    requires forall i :: 0 <= i < |s| ==> !IsLineTerminator(s[i])
    ensures Lines(s) == [s]
  {
    if s != [] {
      LinesOfOneLine(s[1..]);
      assert [s[0]] + s[1..] == s;
    }
  }

  /** A plain title is its own trimmed text. */
  lemma {:induction false} TrimPlainTitle(title: string)
    requires PlainTitle(title)
    ensures TrimStart(title) == title && TrimEnd(title) == title && Trim(title) == title
  {
  }

  /** The text without tags is left alone by the tag removals. */
  lemma {:induction false} RemoveTagsOfPlain(t: string)
    requires forall i :: 0 <= i < |t| ==> t[i] != '<'
    ensures RemoveFirst(t, OpenTagAt, 4) == t
    ensures RemoveFirst(t, CloseTagAt, 5) == t
  {
    assert forall i :: 0 <= i < |t| ==> !OpenTagAt(t, i) && !CloseTagAt(t, i);
  }

  /** The items of a single line. */
  lemma {:induction false} ItemsOfOneLine(line: string)
    ensures TagItems([line]) == (if TagMatch(line).Some? then [TagMatch(line).value] else [])
    ensures MdItems([line]) == (if MdMatch(line).Some? then [line] else [])
  {
    assert [line][1..] == [];
  }

  /** Content of one line with one matched item yields that item's heading
      when the filter keeps it. */
  lemma {:induction false} ParseSingleItem(line: string, item: string, h: Heading)
    requires Lines(line) == [line]
    requires TagItems([line]) + MdItems([line]) == [item]
    requires HeadingOf(item) == h && Kept(h)
    ensures ParseHeadings(line) == [h]
  {
    ParseHeadingsOfItems(line, [item]);
    MapOne(HeadingOf, item);
    FilterOne(h);
  }

  /** `parseHeadings` keeps the headings of the matched items. */
  lemma {:induction false} ParseHeadingsOfItems(content: string, items: seq<string>)
    requires TagItems(Lines(content)) + MdItems(Lines(content)) == items
    ensures ParseHeadings(content) == Filter(HeadingsOf(items), Kept)
  {
  }

  lemma {:induction false} FilterOne(h: Heading)
    requires Kept(h)
    ensures Filter([h], Kept) == [h]
  {
    assert Filter([h], Kept) == [h] + Filter([h][1..], Kept);
  }

  /** A line without `<` has no tag match. */
  lemma {:induction false} NoTagMatch(line: string)
    requires forall i :: 0 <= i < |line| ==> line[i] != '<'
    ensures TagMatch(line).None?
  {
    assert forall i :: !OpenTagAt(line, i);
  }

  /** A Markdown heading line `   ## Title` is one line without tags. */
  lemma {:induction false} MdLinePlain(n: nat, k: nat, title: string)
    requires PlainTitle(title)
    ensures forall i :: 0 <= i < |MdLine(n, k, title)| ==>
              MdLine(n, k, title)[i] != '<' && !IsLineTerminator(MdLine(n, k, title)[i])
  {
    var line := MdLine(n, k, title);
    forall i | 0 <= i < |line| ensures line[i] != '<' && !IsLineTerminator(line[i]) {
      if i >= n + k + 1 {
        assert line[i] == title[i - (n + k + 1)];
      } else if i >= n {
        assert line[i] == (Repeat('#', k) + " ")[i - n];
      }
    }
  }

  /** The text of a trimmed Markdown heading whose title has no tags. */
  lemma {:induction false} MarkedHeadingText(k: nat, title: string)
    requires 1 <= k <= 4
    requires forall i :: 0 <= i < |title| ==> title[i] != '<'
    ensures HeadingText(Repeat('#', k) + " " + title) == Trim(title)
  {
    var trimmed := Repeat('#', k) + " " + title;
    MdMarkerOfHashes(k, title);
    assert trimmed[k + 1..] == title;
    RemoveTagsOfPlain(title);
  }

  /** The trimmed Markdown heading line has the hashes' count as raw level
      and the title as text. */
  lemma {:induction false} MdLineParts(n: nat, k: nat, title: string)
    requires 1 <= k <= 4
    requires PlainTitle(title)
    ensures RawLevel(Trim(MdLine(n, k, title))) == k
    ensures HeadingText(Trim(MdLine(n, k, title))) == title
  {
    assert exists i :: 0 <= i < |title| && !IsWhitespace(title[i]) by {
      assert !IsWhitespace(title[0]);
    }
    var trimmed := Repeat('#', k) + " " + title;
    MdLineTrimmed(n, k, title);
    TrimPlainTitle(title);
    assert Trim(MdLine(n, k, title)) == trimmed;
    MarkedHeadingText(k, title);
    MdMarkerOfHashes(k, title);
  }

  /** The heading of a Markdown heading line with a plain title. */
  lemma {:induction false} MdHeadingOf(n: nat, k: nat, title: string)
    requires 1 <= k <= 4
    requires PlainTitle(title)
    ensures HeadingOf(MdLine(n, k, title)) == Heading(k - 1, title, HeadingToUrl(title))
  {
    MdLineParts(n, k, title);
    HeadingOfLine(MdLine(n, k, title), k, title);
  }

  /** The heading of an item whose trimmed text has the given raw level and text. */
  lemma {:induction false} HeadingOfLine(item: string, level: int, text: string)
    requires RawLevel(Trim(item)) == level && HeadingText(Trim(item)) == text
    ensures HeadingOf(item) == Heading(level - 1, text, HeadingToUrl(text))
  {
    HeadingOfParts(item, level, text);
    HeadingOfFields(HeadingOf(item), level - 1, text);
  }

  /** A heading is its level, its text and the anchor of that text. */
  lemma {:induction false} HeadingOfFields(h: Heading, level: int, text: string)
    requires h.level == level && h.text == text && h.anchor == HeadingToUrl(text)
    ensures h == Heading(level, text, HeadingToUrl(text))
  {
  }

  /** A heading is computed from the trimmed item: its raw level and its text. */
  lemma {:induction false} HeadingOfParts(item: string, level: int, text: string)
    requires RawLevel(Trim(item)) == level && HeadingText(Trim(item)) == text
    ensures HeadingOf(item).level == level - 1 && HeadingOf(item).text == text
  {
  }

  /** A Markdown heading line `   ## Title` yields the one heading
      `Title`, at the number of hashes minus one as level. */
  lemma {:induction false} MdHeadingParsed(n: nat, k: nat, title: string)
    requires 1 <= k <= 4
    requires PlainTitle(title)
    ensures ParseHeadings(MdLine(n, k, title)) == [Heading(k - 1, title, HeadingToUrl(title))]
  {
    var line := MdLine(n, k, title);
    MdLineItems(n, k, title);
    MdHeadingOf(n, k, title);
    KeptHeading(k - 1, title);
    ParseSingleItem(line, line, Heading(k - 1, title, HeadingToUrl(title)));
  }

  /** A Markdown heading line is one line and its only matched item. */
  lemma {:induction false} MdLineItems(n: nat, k: nat, title: string)
    requires 1 <= k <= 4
    requires PlainTitle(title)
    ensures Lines(MdLine(n, k, title)) == [MdLine(n, k, title)]
    ensures TagItems([MdLine(n, k, title)]) + MdItems([MdLine(n, k, title)]) == [MdLine(n, k, title)]
  {
    var line := MdLine(n, k, title);
    MdLinePlain(n, k, title);
    LinesOfOneLine(line);
    NoTagMatch(line);
    ItemsOfOneLine(line);
    MdLineMatches(n, k, title);
    assert TagItems([line]) == [] && MdItems([line]) == [line];
  }

  /** An HTML heading line: `<hd>`, the title and `</hd>`. */
  function TagLine(d: char, title: string): string
  {
    "<h" + [d] + ">" + title + "</h" + [d] + ">"
  }

  /** An HTML heading line is one line that no Markdown marker matches. */
  lemma {:induction false} TagLineShape(d: char, title: string)
    requires IsDigit(d)
    requires PlainTitle(title)
    ensures Lines(TagLine(d, title)) == [TagLine(d, title)]
    ensures MdMatch(TagLine(d, title)).None? && MdMarker(TagLine(d, title)).None?
  {
    var line := TagLine(d, title);
    forall i | 0 <= i < |line| ensures !IsLineTerminator(line[i]) {
      if 4 <= i < 4 + |title| {
        assert line[i] == title[i - 4];
      }
    }
    LinesOfOneLine(line);
    assert forall n, k :: !MarkerAt(line, n, k) by {
      assert line[0] == '<';
    }
  }

  /** The heading of an HTML heading line with a plain title. */
  lemma {:induction false} TagHeadingOf(d: char, title: string)
    requires IsDigit(d)
    requires PlainTitle(title)
    ensures HeadingOf(TagLine(d, title)) == Heading(DigitValue(d) - 1, title, HeadingToUrl(title))
  {
    var line := TagLine(d, title);
    TagLineShape(d, title);
    assert TrimStart(line) == line;
    assert TrimEnd(line) == line;
    assert RawLevel(line) == DigitValue(d);
    TagLineText(d, title);
  }

  /** The filter keeps a heading with a title and a level of at least 0. */
  lemma {:induction false} KeptHeading(level: int, title: string)
    requires level >= 0 && title != []
    ensures Kept(Heading(level, title, HeadingToUrl(title)))
  {
  }

  lemma {:induction false} DigitValuePositive(d: char)
    requires IsDigit(d) && d != '0'
    ensures DigitValue(d) >= 1
  {
  }

  /** An HTML heading line `<h2>Title</h2>` yields the one heading `Title`,
      at its digit minus one as level. */
  lemma {:induction false} TagHeadingParsed(d: char, title: string)
    requires IsDigit(d) && d != '0'
    requires PlainTitle(title)
    ensures ParseHeadings(TagLine(d, title)) == [Heading(DigitValue(d) - 1, title, HeadingToUrl(title))]
  {
    var line := TagLine(d, title);
    TagLineItems(d, title);
    TagHeadingOf(d, title);
    DigitValuePositive(d);
    KeptHeading(DigitValue(d) - 1, title);
    ParseSingleItem(line, line, Heading(DigitValue(d) - 1, title, HeadingToUrl(title)));
  }

  /** An HTML heading line is one line and its only matched item. */
  lemma {:induction false} TagLineItems(d: char, title: string)
    requires IsDigit(d)
    requires PlainTitle(title)
    ensures Lines(TagLine(d, title)) == [TagLine(d, title)]
    ensures TagItems([TagLine(d, title)]) + MdItems([TagLine(d, title)]) == [TagLine(d, title)]
  {
    var line := TagLine(d, title);
    TagLineShape(d, title);
    TagLineMatch(d, title);
    ItemsOfOneLine(line);
    assert TagItems([line]) == [line] && MdItems([line]) == [];
  }

  /** The whole of an HTML heading line is its tag match. */
  lemma {:induction false} TagLineMatch(d: char, title: string)
    requires IsDigit(d)
    requires PlainTitle(title)
    ensures TagMatch(TagLine(d, title)) == Some(TagLine(d, title))
  {
    var line := TagLine(d, title);
    var c := |line| - 5;
    assert OpenTagAt(line, 0);
    assert CloseTagAt(line, c);
    assert FirstFrom(line, OpenTagAt, 0) == 0;
    assert LastBefore(line, CloseTagAt, |line|) == c;
    assert line[0..c + 5] == line;
  }

  /** Removing the tags of an HTML heading line leaves its title. */
  lemma {:induction false} TagLineText(d: char, title: string)
    requires IsDigit(d)
    requires PlainTitle(title)
    ensures HeadingText(TagLine(d, title)) == title
  {
    TagLineShape(d, title);
    OpenTagRemoved(d, title);
    CloseTagRemoved(d, title);
    TrimPlainTitle(title);
  }

  /** Removing the opening tag of an HTML heading line leaves the title and the closing tag. */
  lemma {:induction false} OpenTagRemoved(d: char, title: string)
    requires IsDigit(d)
    ensures RemoveFirst(TagLine(d, title), OpenTagAt, 4) == title + "</h" + [d] + ">"
  {
    var line := TagLine(d, title);
    assert OpenTagAt(line, 0);
    assert FirstFrom(line, OpenTagAt, 0) == 0;
    assert line[4..] == title + "</h" + [d] + ">";
  }

  /** Removing the first closing tag after a title without tags leaves the title. */
  lemma {:induction false} CloseTagRemoved(d: char, title: string)
    requires IsDigit(d)
    requires PlainTitle(title)
    ensures RemoveFirst(title + "</h" + [d] + ">", CloseTagAt, 5) == title
  {
    var u := title + "</h" + [d] + ">";
    assert CloseTagAt(u, |title|);
    assert forall i :: 0 <= i < |title| ==> !CloseTagAt(u, i) by {
      forall i | 0 <= i < |title| ensures !CloseTagAt(u, i) {
        assert u[i] == title[i];
      }
    }
    var q := FirstFrom(u, CloseTagAt, 0);
    assert q == |title|;
    assert u[..q] == title;
    assert u[q + 5..] == [];
  }

  // ===========================================================================
  // getNewsEntry

  /** The first entry with the slug, if any (`find`). */
  function FindBySlug(entries: seq<NewsEntry>, slug: string): (r: Option<NewsEntry>)
    ensures r.None? <==> forall e :: e in entries ==> e.slug != slug
    ensures r.Some? ==> exists i :: 0 <= i < |entries| && entries[i] == r.value && r.value.slug == slug &&
                                   forall j :: 0 <= j < i ==> entries[j].slug != slug
  {
    if entries == [] then None
    else if entries[0].slug == slug then Some(entries[0])
    else
      var r := FindBySlug(entries[1..], slug);
      assert r.Some? ==> exists i :: 0 <= i < |entries| && entries[i] == r.value && r.value.slug == slug &&
                                     forall j :: 0 <= j < i ==> entries[j].slug != slug by {
        if r.Some? {
          var i :| 0 <= i < |entries[1..]| && entries[1..][i] == r.value &&
                   forall j :: 0 <= j < i ==> entries[1..][j].slug != slug;
          assert entries[i + 1] == r.value;
          forall j | 0 <= j < i + 1 ensures entries[j].slug != slug {
            if j > 0 { assert entries[1..][j - 1] == entries[j]; }
          }
        }
      }
      r
  }

  /** What gray-matter yields for a news file: the front matter, the body,
      and the excerpt, if any. */
  datatype Parsed = Parsed(data: NewsMetadata, content: string, excerpt: Option<string>)

  /** The entry the news page renders. */
  datatype NewsPage = NewsPage(data: NewsMetadata, content: string, excerpt: string, slug: string)

  /** Replaces every run of white space by one space (`replace(/\s+/g, ' ')`). */
  function CollapseWhitespace(s: string): (r: string)
    ensures |r| <= |s|
    ensures forall i :: 0 <= i < |r| && IsWhitespace(r[i]) ==> r[i] == ' '
    ensures forall i :: 0 <= i < |r| - 1 && IsWhitespace(r[i]) ==> !IsWhitespace(r[i + 1])
    ensures r != [] && s != [] ==> (IsWhitespace(r[0]) <==> IsWhitespace(s[0]))
    ensures (forall i :: 0 <= i < |s| ==> !IsWhitespace(s[i])) ==> r == s
  {
    if s == [] then []
    else if IsWhitespace(s[0]) then
      var rest := TrimStart(s);
      var r := [' '] + CollapseWhitespace(rest);
      r
    else [s[0]] + CollapseWhitespace(s[1..])
  }

  /** Outside white space, collapsing keeps every character, in order. */
  lemma {:induction false} CollapseKeepsText(s: string)
    ensures Filter(CollapseWhitespace(s), Visible) == Filter(s, Visible)
    decreases |s|
  {
    if s != [] {
      if IsWhitespace(s[0]) {
        TrimStartDropsWhitespace(s);
        var rest := TrimStart(s);
        CollapseKeepsText(rest);
        FilterAppend([' '], CollapseWhitespace(rest), Visible);
      } else {
        CollapseKeepsText(s[1..]);
        FilterAppend([s[0]], CollapseWhitespace(s[1..]), Visible);
        assert s == [s[0]] + s[1..];
        FilterAppend([s[0]], s[1..], Visible);
      }
    }
  }

  /** Trimming the start drops only white space. */
  lemma {:induction false} TrimStartDropsWhitespace(s: string)
    ensures Filter(TrimStart(s), Visible) == Filter(s, Visible)
    ensures |TrimStart(s)| < |s| || s == [] || !IsWhitespace(s[0])
  {
    if s != [] && IsWhitespace(s[0]) {
      assert TrimStart(s) == TrimStart(s[1..]);
      TrimStartDropsWhitespace(s[1..]);
      FilterSkip(s, Visible);
    }
  }

  predicate Visible(c: char)
  {
    !IsWhitespace(c)
  }

  /** Leading white space before a visible character is all trimmed. */
  lemma {:induction false} TrimStartOfWhitespace(ws: string, b: string)
    requires forall i :: 0 <= i < |ws| ==> IsWhitespace(ws[i])
    requires b == [] || !IsWhitespace(b[0])
    ensures TrimStart(ws + b) == b
  {
    if ws == [] {
      assert ws + b == b;
    } else {
      assert (ws + b)[0] == ws[0];
      assert (ws + b)[1..] == ws[1..] + b;
      TrimStartOfWhitespace(ws[1..], b);
    }
  }

  /** Trimming the start of a text with a visible last character leaves
      whatever follows it alone. */
  lemma {:induction false} TrimStartAppend(a: string, t: string)
    requires a != [] && !IsWhitespace(a[|a| - 1])
    ensures TrimStart(a + t) == TrimStart(a) + t
    ensures TrimStart(a) != [] && !IsWhitespace(TrimStart(a)[|TrimStart(a)| - 1])
  {
    if IsWhitespace(a[0]) {
      assert |a| > 1;
      assert (a + t)[0] == a[0];
      assert (a + t)[1..] == a[1..] + t;
      TrimStartAppend(a[1..], t);
    } else {
      assert (a + t)[0] == a[0];
    }
  }

  lemma {:induction false} JoinAfterHead(c: char, whole: string, rest: string, x: string, cx: string, y: string)
    requires whole == [c] + rest && rest == x + " " + y && cx == [c] + x
    ensures whole == cx + " " + y
  {
  }

  /** A white-space run between two visible characters becomes one space,
      and each side is collapsed on its own. */
  lemma {:induction false} CollapseRun(a: string, ws: string, b: string)
    requires a == [] || !IsWhitespace(a[|a| - 1])
    requires ws != [] && forall i :: 0 <= i < |ws| ==> IsWhitespace(ws[i])
    requires b == [] || !IsWhitespace(b[0])
    ensures CollapseWhitespace(a + ws + b) == CollapseWhitespace(a) + " " + CollapseWhitespace(b)
  {
    var t := ws + b;
    AppendAssoc(a, ws, b, t);
    CollapseBeforeRun(a, ws, b, t);
  }

  lemma {:induction false} AppendAssoc(a: string, ws: string, b: string, t: string)
    requires t == ws + b
    ensures a + ws + b == a + t
  {
  }

  /** `CollapseRun` with the run and what follows it as one text `t`. */
  lemma {:induction false} CollapseBeforeRun(a: string, ws: string, b: string, t: string)
    requires a == [] || !IsWhitespace(a[|a| - 1])
    requires ws != [] && forall i :: 0 <= i < |ws| ==> IsWhitespace(ws[i])
    requires b == [] || !IsWhitespace(b[0])
    requires t == ws + b
    ensures CollapseWhitespace(a + t) == CollapseWhitespace(a) + " " + CollapseWhitespace(b)
    decreases |a|, 1
  {
    if a == [] {
      CollapseOnlyRun(a, ws, b, t);
    } else if IsWhitespace(a[0]) {
      CollapseSpaceBeforeRun(a, ws, b, t);
    } else {
      CollapseVisibleBeforeRun(a, ws, b, t);
    }
  }

  /** `CollapseBeforeRun` when nothing comes before the run. */
  lemma {:induction false} CollapseOnlyRun(a: string, ws: string, b: string, t: string)
    requires a == []
    requires ws != [] && forall i :: 0 <= i < |ws| ==> IsWhitespace(ws[i])
    requires b == [] || !IsWhitespace(b[0])
    requires t == ws + b
    ensures CollapseWhitespace(a + t) == CollapseWhitespace(a) + " " + CollapseWhitespace(b)
  {
    assert a + t == t && t[0] == ws[0];
    TrimStartOfWhitespace(ws, b);
    CollapseSpaceHead(t);
    LeadingSpace(CollapseWhitespace(b));
  }

  lemma {:induction false} LeadingSpace(x: string)
    ensures [' '] + x == CollapseWhitespace([]) + " " + x
  {
  }

  /** `CollapseBeforeRun` when the text before the run starts with white space. */
  lemma {:induction false} CollapseSpaceBeforeRun(a: string, ws: string, b: string, t: string)
    requires a != [] && IsWhitespace(a[0]) && !IsWhitespace(a[|a| - 1])
    requires ws != [] && forall i :: 0 <= i < |ws| ==> IsWhitespace(ws[i])
    requires b == [] || !IsWhitespace(b[0])
    requires t == ws + b
    ensures CollapseWhitespace(a + t) == CollapseWhitespace(a) + " " + CollapseWhitespace(b)
    decreases |a|, 0
  {
    var ta := TrimStart(a);
    SpaceHeadOfAppend(a, t);
    CollapseBeforeRun(ta, ws, b, t);
    CollapseSpaceHead(a);
    JoinAfterHead(' ', CollapseWhitespace(a + t), CollapseWhitespace(ta + t),
                  CollapseWhitespace(ta), CollapseWhitespace(a), CollapseWhitespace(b));
  }

  /** A text with a visible last character and leading white space, followed
      by anything, collapses to a space and its trimmed part followed by the rest. */
  lemma {:induction false} SpaceHeadOfAppend(a: string, t: string)
    requires a != [] && IsWhitespace(a[0]) && !IsWhitespace(a[|a| - 1])
    ensures CollapseWhitespace(a + t) == [' '] + CollapseWhitespace(TrimStart(a) + t)
    ensures |TrimStart(a)| < |a| && TrimStart(a) != [] && !IsWhitespace(TrimStart(a)[|TrimStart(a)| - 1])
  {
    TrimStartAppend(a, t);
    TrimStartDropsWhitespace(a);
    assert (a + t)[0] == a[0];
    CollapseSpaceHead(a + t);
  }

  /** `CollapseBeforeRun` when the text before the run starts with a visible character. */
  lemma {:induction false} CollapseVisibleBeforeRun(a: string, ws: string, b: string, t: string)
    requires a != [] && !IsWhitespace(a[0]) && !IsWhitespace(a[|a| - 1])
    requires ws != [] && forall i :: 0 <= i < |ws| ==> IsWhitespace(ws[i])
    requires b == [] || !IsWhitespace(b[0])
    requires t == ws + b
    ensures CollapseWhitespace(a + t) == CollapseWhitespace(a) + " " + CollapseWhitespace(b)
    decreases |a|, 0
  {
    assert (a + t)[0] == a[0] && (a + t)[1..] == a[1..] + t;
    CollapseBeforeRun(a[1..], ws, b, t);
    CollapseVisibleHead(a + t);
    CollapseVisibleHead(a);
    JoinAfterHead(a[0], CollapseWhitespace(a + t), CollapseWhitespace(a[1..] + t),
                  CollapseWhitespace(a[1..]), CollapseWhitespace(a), CollapseWhitespace(b));
  }

  /** A text starting with white space collapses to a space and the rest. */
  lemma {:induction false} CollapseSpaceHead(s: string)
    requires s != [] && IsWhitespace(s[0])
    ensures CollapseWhitespace(s) == [' '] + CollapseWhitespace(TrimStart(s))
  {
  }

  /** A text starting with a visible character keeps it and collapses the rest. */
  lemma {:induction false} CollapseVisibleHead(s: string)
    requires s != [] && !IsWhitespace(s[0])
    ensures CollapseWhitespace(s) == [s[0]] + CollapseWhitespace(s[1..])
  {
  }

  /** The excerpt of an entry: the parsed one when present and not empty,
      otherwise the first 160 characters of the body with white space runs
      collapsed. */
  function Excerpt(parsed: Parsed): (r: string)
    ensures parsed.excerpt.Some? && parsed.excerpt.value != "" ==> r == parsed.excerpt.value
    ensures parsed.excerpt.None? || parsed.excerpt.value == "" ==>
      |r| <= 160 && r == CollapseWhitespace(parsed.content[..if |parsed.content| < 160 then |parsed.content| else 160])
  {
    if parsed.excerpt.None? || parsed.excerpt.value == "" then
      CollapseWhitespace(parsed.content[..if |parsed.content| < 160 then |parsed.content| else 160])
    else parsed.excerpt.value
  }

  /** `getNewsEntry`: the entry whose slug matches, read through `read`
      (the file read and front matter parse), with the excerpt filled in;
      none for an unknown slug or an entry without a content path. */
  function GetNewsEntry(entries: seq<NewsEntry>, slug: string, read: string -> Parsed): (r: Option<NewsPage>)
    ensures (forall e :: e in entries ==> e.slug != slug) ==> r.None?
    ensures r.Some? ==>
              exists e :: e in entries && e.slug == slug && e.contentMdxPath != "" &&
                r.value == NewsPage(read(e.contentMdxPath).data, read(e.contentMdxPath).content,
                                    Excerpt(read(e.contentMdxPath)), slug)
    ensures var found := FindBySlug(entries, slug);
      found.Some? && found.value.contentMdxPath != "" ==>
        var parsed := read(found.value.contentMdxPath);
        r == Some(NewsPage(parsed.data, parsed.content, Excerpt(parsed), slug))
    ensures var found := FindBySlug(entries, slug);
      found.Some? && found.value.contentMdxPath == "" ==> r.None?
  {
    var found := FindBySlug(entries, slug);
    if found.None? || found.value.contentMdxPath == "" then None
    else
      var parsed := read(found.value.contentMdxPath);
      Some(NewsPage(parsed.data, parsed.content, Excerpt(parsed), slug))
  }
}
