/** The publications table (src/components/publications-table.tsx): the
    number of visible rows and its "see more" control, the DOI link text,
    the author links and separators, and the type label. Navigation is
    returned as the target path. */
module PublicationsTable {
  import opened JsCore
  import opened SiteTypes

  /** What "see more" does: grow the table in place or go to the full list. */
  datatype SeeMoreAction = Scroll | Redirect

  /** The rows shown before any "see more". */
  const InitialRows: nat := 3

  /** The rows one "see more" adds. */
  const RowsPerStep: nat := 10

  /** The row count after one "see more" in scroll mode: ten more, at most
      all of them. */
  function NextVisibleRows(prev: nat, total: nat): (r: nat)
    ensures r <= total
    ensures r <= prev + RowsPerStep
    ensures r == prev + RowsPerStep || r == total
    ensures prev <= total ==> prev <= r
    ensures prev < total ==> prev < r
  {
    if prev + RowsPerStep < total then prev + RowsPerStep else total
  }

  /** The "see more" control is shown exactly while rows are hidden. */
  predicate SeeMoreShown(visibleRows: nat, total: nat)
  {
    visibleRows < total
  }

  /** Pressing "see more" while it is shown always reveals more rows, and
      after at most ceil(total / 10) presses it is no longer shown. */
  lemma {:induction false} SeeMoreTerminates(prev: nat, total: nat)
    requires SeeMoreShown(prev, total)
    ensures prev < NextVisibleRows(prev, total)
    ensures total - NextVisibleRows(prev, total) < total - prev
    ensures (total - prev) <= RowsPerStep ==> !SeeMoreShown(NextVisibleRows(prev, total), total)
  {
  }

  // ---------------------------------------------------------------------------
  // formatDOILink

  /** `http://doi.org/` or `https://doi.org/` starts at `p`; the length of
      the prefix that matched, 0 for none. */
  function DoiPrefixAt(s: string, p: nat): (len: nat)
    ensures len == 0 || len == 15 || len == 16
    ensures len > 0 ==> p + len <= |s|
    ensures len == 15 ==> s[p..p + len] == "http://doi.org/"
    ensures len == 16 ==> s[p..p + len] == "https://doi.org/"
    ensures len == 16 <==> OccursAt(s, "https://doi.org/", p)
    ensures len == 15 <==> OccursAt(s, "http://doi.org/", p)
  {
    if p + 16 <= |s| && s[p..p + 16] == "https://doi.org/" then
      assert s[p + 4] == 's' != "http://doi.org/"[4];
      16
    else if p + 15 <= |s| && s[p..p + 15] == "http://doi.org/" then 15
    else 0
  }

  /** The rest of the link after a prefix matches `(.+?)(?:\/)?$`: it is not
      empty and has no line terminator; the lazy group leaves out one
      trailing slash when something precedes it. */
  function DoiGroup(rest: string): (r: Option<string>)
    ensures r.Some? <==> rest != [] && forall c :: c in rest ==> !IsLineTerminator(c)
    ensures r.Some? ==> r.value != [] && (r.value == rest || r.value + "/" == rest)
    ensures r.Some? && r.value + "/" == rest ==> |rest| >= 2
  {
    if rest == [] || exists c :: c in rest && IsLineTerminator(c) then None
    else if |rest| >= 2 && rest[|rest| - 1] == '/' then
      assert rest[..|rest| - 1] + "/" == rest;
      Some(rest[..|rest| - 1])
    else Some(rest)
  }

  /** The match starting at `p`, if any: the captured DOI reference. */
  function DoiMatchAt(s: string, p: nat): Option<string>
    requires p <= |s|
  {
    var len := DoiPrefixAt(s, p);
    if len == 0 then None else DoiGroup(s[p + len..])
  }

  /** The leftmost match at or after `from`. */
  function DoiMatchFrom(s: string, from: nat): (r: Option<string>)
    requires from <= |s|
    ensures r.None? <==> forall p :: from <= p <= |s| ==> DoiMatchAt(s, p).None?
    ensures r.Some? ==> exists p :: from <= p <= |s| && DoiMatchAt(s, p) == r &&
                                   forall q :: from <= q < p ==> DoiMatchAt(s, q).None?
    decreases |s| - from
  {
    if DoiMatchAt(s, from).Some? then DoiMatchAt(s, from)
    else if from == |s| then None
    else
      var r := DoiMatchFrom(s, from + 1);
      DoiMatchFromStep(s, from, r);
      r
  }

  /** A position without a match extends the leftmost match found after it. */
  lemma {:induction false} DoiMatchFromStep(s: string, from: nat, r: Option<string>)
    requires from < |s| && DoiMatchAt(s, from).None?
    requires r.None? <==> forall p :: from + 1 <= p <= |s| ==> DoiMatchAt(s, p).None?
    requires r.Some? ==> exists p :: from + 1 <= p <= |s| && DoiMatchAt(s, p) == r &&
                                     forall q :: from + 1 <= q < p ==> DoiMatchAt(s, q).None?
    ensures r.None? <==> forall p :: from <= p <= |s| ==> DoiMatchAt(s, p).None?
    ensures r.Some? ==> exists p :: from <= p <= |s| && DoiMatchAt(s, p) == r &&
                                    forall q :: from <= q < p ==> DoiMatchAt(s, q).None?
  {
    if r.Some? {
      var p :| from + 1 <= p <= |s| && DoiMatchAt(s, p) == r &&
               forall q :: from + 1 <= q < p ==> DoiMatchAt(s, q).None?;
      NoneBefore(s, from, p);
    }
  }

  lemma {:induction false} NoneBefore(s: string, from: nat, p: nat)
    requires from < p <= |s| && DoiMatchAt(s, from).None?
    requires forall q :: from + 1 <= q < p ==> DoiMatchAt(s, q).None?
    ensures forall q :: from <= q < p ==> DoiMatchAt(s, q).None?
  {
  }

  /** `formatDOILink`: empty for a missing or empty link; `DOI: <ref>` when
      the link holds a doi.org address; the link itself otherwise. */
  function FormatDoiLink(link: Option<string>): (r: string)
    ensures r == "" <==> !Truthy(link)
    ensures Truthy(link) && DoiMatchFrom(link.value, 0).None? ==> r == link.value
    ensures Truthy(link) && DoiMatchFrom(link.value, 0).Some? ==> r == "DOI: " + DoiMatchFrom(link.value, 0).value
  {
    if !Truthy(link) then ""
    else
      match DoiMatchFrom(link.value, 0)
      case Some(ref) => "DOI: " + ref
      case None => link.value
  }

  /** A link that is a doi.org address followed by a reference without line
      breaks is shown as `DOI: <ref>`, with one trailing slash removed. */
  lemma {:induction false} DoiLinkShown(secure: bool, ref: string)
    requires ref != [] && forall c :: c in ref ==> !IsLineTerminator(c)
    ensures var link := (if secure then "https://doi.org/" else "http://doi.org/") + ref;
      FormatDoiLink(Some(link)) == "DOI: " + (if |ref| >= 2 && ref[|ref| - 1] == '/' then ref[..|ref| - 1] else ref)
  {
    var prefix := if secure then "https://doi.org/" else "http://doi.org/";
    var link := prefix + ref;
    assert link[..|prefix|] == prefix;
    if !secure {
      assert link[..16] != "https://doi.org/" by { assert link[4] == ':'; }
    }
    assert DoiPrefixAt(link, 0) == |prefix|;
    assert link[|prefix|..] == ref;
    assert DoiMatchAt(link, 0).Some?;
  }

  /** A link that holds no doi.org prefix is shown as it is. */
  lemma {:induction false} NonDoiLinkUnchanged(link: string)
    requires link != ""
    requires forall p :: 0 <= p <= |link| ==> DoiPrefixAt(link, p) == 0
    ensures FormatDoiLink(Some(link)) == link
  {
  }

  // ---------------------------------------------------------------------------
  // Authors and types

  /** The link of an author: the lab page when the author has a lab, the
      team page when the author is a team member, none otherwise. */
  function AuthorHref(lang: string, author: Author): (href: Option<string>)
    ensures Truthy(author.labId) ==> href == Some("/" + lang + "/labs/" + author.labId.value)
    ensures !Truthy(author.labId) && Truthy(author.id) ==> href == Some("/" + lang + "/team")
    ensures href.None? <==> !Truthy(author.labId) && !Truthy(author.id)
  {
    if Truthy(author.labId) then Some("/" + lang + "/labs/" + author.labId.value)
    else if Truthy(author.id) then Some("/" + lang + "/team")
    else None
  }

  /** One rendered author: the link, if any, the name and the separator after it. */
  datatype AuthorView = AuthorView(href: Option<string>, name: string, separator: string)

  /** `renderAuthor` over the author list. */
  function RenderAuthors(lang: string, authors: seq<Author>): (views: seq<AuthorView>)
    ensures |views| == |authors|
    ensures forall i :: 0 <= i < |authors| ==> views[i].name == authors[i].name && views[i].href == AuthorHref(lang, authors[i])
    ensures forall i :: 0 <= i < |authors| ==> (views[i].separator == "" <==> i == |authors| - 1)
    ensures forall i :: 0 <= i < |authors| - 1 ==> views[i].separator == ", "
  {
    seq(|authors|, i requires 0 <= i < |authors| =>
      AuthorView(AuthorHref(lang, authors[i]), authors[i].name, if i == |authors| - 1 then "" else ", "))
  }

  /** The text of an author cell: each name followed by its separator. */
  function AuthorsText(views: seq<AuthorView>): string
  {
    if views == [] then "" else views[0].name + views[0].separator + AuthorsText(views[1..])
  }

  function Names(authors: seq<Author>): (names: seq<string>)
    ensures |names| == |authors| && forall i :: 0 <= i < |authors| ==> names[i] == authors[i].name
  {
    seq(|authors|, i requires 0 <= i < |authors| => authors[i].name)
  }

  /** The author cell reads as the names joined by `, `: a separator after
      every author but the last. */
  lemma {:induction false} AuthorsTextIsJoin(lang: string, authors: seq<Author>)
    ensures AuthorsText(RenderAuthors(lang, authors)) == Join(Names(authors), ", ")
  {
    if |authors| == 1 {
      assert Names(authors) == [authors[0].name];
    } else if |authors| > 1 {
      var views := RenderAuthors(lang, authors);
      AuthorsTextIsJoin(lang, authors[1..]);
      var tail := RenderAuthors(lang, authors[1..]);
      assert views[1..] == tail by {
        forall i | 0 <= i < |tail| ensures views[1..][i] == tail[i] {
          assert authors[1..][i] == authors[i + 1];
        }
      }
      assert Names(authors)[1..] == Names(authors[1..]);
    }
  }

  /** The type column: the localised text for national publications, the
      type's own name otherwise. */
  function TypeLabel(t: PublicationType, nationalText: string): (shown: string)
    ensures t == National ==> shown == nationalText
    ensures t == International ==> shown == "International"
    ensures t == Patent ==> shown == "Patent"
  {
    match t
    case National => nationalText
    case International => "International"
    case Patent => "Patent"
  }

  /** One rendered row. */
  datatype Row = Row(number: nat, title: string, authors: seq<AuthorView>, typeLabel: string,
                     year: int, database: string, link: Option<(string, string)>)

  function RowOf(lang: string, nationalText: string, p: Publication, number: nat): Row
  {
    Row(number, p.title, RenderAuthors(lang, p.authors), TypeLabel(p.publicationType, nationalText),
        p.year, p.biographicalDatabase,
        if Truthy(p.link) then Some((p.link.value, FormatDoiLink(p.link))) else None)
  }

  /** The table body: the first `visibleRows` publications, numbered from 1. */
  function RenderedRows(lang: string, nationalText: string, publications: seq<Publication>, visibleRows: nat)
    : (rows: seq<Row>)
    ensures |rows| == if visibleRows < |publications| then visibleRows else |publications|
    ensures forall i :: 0 <= i < |rows| ==> rows[i].number == i + 1 && rows[i].title == publications[i].title
    ensures forall i :: 0 <= i < |rows| ==> rows[i] == RowOf(lang, nationalText, publications[i], i + 1)
  {
    var shown := if visibleRows < |publications| then publications[..visibleRows] else publications;
    seq(|shown|, i requires 0 <= i < |shown| => RowOf(lang, nationalText, shown[i], i + 1))
  }

  // ---------------------------------------------------------------------------
  // The table's state

  class Table {
    const lang: string
    const publications: seq<Publication>
    const action: SeeMoreAction
    var visibleRows: nat

    constructor (lang: string, publications: seq<Publication>, action: SeeMoreAction)
      ensures this.lang == lang && this.publications == publications && this.action == action
      ensures visibleRows == InitialRows
    {
      this.lang := lang;
      this.publications := publications;
      this.action := action;
      visibleRows := InitialRows;
    }

    /** `handleSeeMore`: in redirect mode, the target of the navigation and
        no change; in scroll mode, ten more rows and no navigation. */
    method HandleSeeMore() returns (target: Option<string>)
      modifies this`visibleRows
      ensures action == Redirect ==> target == Some("/" + lang + "/publications") && visibleRows == old(visibleRows)
      ensures action == Scroll ==> target.None? && visibleRows == NextVisibleRows(old(visibleRows), |publications|)
    {
      if action == Redirect {
        target := Some("/" + lang + "/publications");
      } else {
        visibleRows := NextVisibleRows(visibleRows, |publications|);
        target := None;
      }
    }
  }
}
