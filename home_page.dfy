/** The site root (src/app/page.tsx): it redirects to the language named
    first in the request's `Accept-Language` header. */
module HomePage {
  import opened JsCore

  /** The locale: the first comma-separated entry of the header, up to its
      first `-`; undefined without the header. */
  function Locale(acceptLanguage: Option<string>): (locale: Option<string>)
    ensures locale.None? <==> acceptLanguage.None?
    ensures locale.Some? ==> ',' !in locale.value && '-' !in locale.value
    ensures locale.Some? ==> locale.value <= acceptLanguage.value
    ensures locale.Some? ==> |locale.value| == |acceptLanguage.value|
                             || acceptLanguage.value[|locale.value|] == ','
                             || acceptLanguage.value[|locale.value|] == '-'
  {
    match acceptLanguage
    case None => None
    case Some(header) =>
      var entry := Split(header, ',')[0];
      var locale := Split(entry, '-')[0];
      SplitFirstPiece(header, ',');
      SplitFirstPiece(entry, '-');
      assert ',' !in locale by {
        assert forall k :: 0 <= k < |locale| ==> locale[k] == entry[k];
      }
      Some(locale)
  }

  /** The redirect target; a template string renders a missing locale as
      `undefined`. */
  function RedirectTarget(acceptLanguage: Option<string>): (target: string)
    ensures acceptLanguage.None? ==> target == "/undefined"
    ensures acceptLanguage.Some? ==> target == "/" + Locale(acceptLanguage).value
  {
    match Locale(acceptLanguage)
    case None => "/undefined"
    case Some(locale) => "/" + locale
  }

  /** A header such as `en-US,en;q=0.9` gives `en`. */
  lemma {:induction false} RegionDropped(lang: string, region: string, rest: string)
    requires ',' !in lang && '-' !in lang && ',' !in region
    ensures Locale(Some(lang + "-" + region + "," + rest)) == Some(lang)
  {
    var entry := lang + "-" + region;
    assert lang + "-" + region + "," + rest == entry + [','] + rest;
    assert ',' !in entry by {
      assert forall k :: 0 <= k < |entry| ==> entry[k] in lang || entry[k] == '-' || entry[k] in region;
    }
    SplitPrefix(entry, ',', rest);
    assert entry == lang + ['-'] + region;
    SplitPrefix(lang, '-', region);
  }

  /** Quality values are kept: `en;q=0.9` gives `en;q=0.9`. */
  lemma {:induction false} QualityKept()
    ensures Locale(Some("en;q=0.9")) == Some("en;q=0.9")
  {
    SplitNoSeparator("en;q=0.9", ',');
    SplitNoSeparator("en;q=0.9", '-');
  }
}
