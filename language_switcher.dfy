/** The language switcher (src/components/language-switcher.tsx): for each
    site language, the current page's address with the language segment
    replaced, and the language's label. */
module LanguageSwitcher {
  import opened JsCore

  /** The site languages, in the order the switcher lists them. */
  const Languages: seq<string> := ["kk", "ru", "en"]

  /** `pathWithoutLang`: the segments of the path after the leading empty
      one and the language, joined again with `/`. */
  function PathWithoutLang(pathname: string): string
  {
    var segments := Split(pathname, '/');
    Join(segments[if |segments| < 2 then |segments| else 2..], "/")
  }

  /** `newPath`: the language, then the rest of the path when there is one,
      then the query when there is one. */
  function NewPath(lang: string, rest: string, query: string): (path: string)
    ensures |path| > |lang| && path[..|lang| + 1] == "/" + lang
    ensures rest == "" && query == "" ==> path == "/" + lang
    ensures query != "" ==> |path| > |query| && path[|path| - |query| - 1..] == "?" + query
    ensures rest != "" ==> |path| >= |lang| + 2 + |rest| && path[..|lang| + 2 + |rest|] == "/" + lang + "/" + rest
    ensures rest == "" ==> path[..|lang| + 1] == "/" + lang
    ensures |path| == 1 + |lang| + (if rest != "" then 1 + |rest| else 0) + (if query != "" then 1 + |query| else 0)
  {
    "/" + lang + (if rest != "" then "/" + rest else "") + (if query != "" then "?" + query else "")
  }

  /** The links the switcher renders, one per language, in order. */
  function Targets(pathname: string, query: string): (targets: seq<string>)
    ensures |targets| == |Languages| == 3
    ensures forall i :: 0 <= i < 3 ==> targets[i] == NewPath(Languages[i], PathWithoutLang(pathname), query)
  {
    seq(|Languages|, i requires 0 <= i < |Languages| => NewPath(Languages[i], PathWithoutLang(pathname), query))
  }

  /** The label of a language: `KZ` for Kazakh, the upper-cased code otherwise. */
  function Label(lang: string): (text: string)
    ensures lang == "kk" ==> text == "KZ"
    ensures lang != "kk" ==> text == ToUpper(lang)
  {
    if lang == "kk" then "KZ" else ToUpper(lang)
  }

  /** The labels of the three languages. */
  lemma {:induction false} Labels()
    ensures Label("kk") == "KZ" && Label("ru") == "RU" && Label("en") == "EN"
  {
    assert ToUpper("ru") == "RU" by {
      assert ToUpper("ru")[0] == UpperChar('r') && ToUpper("ru")[1] == UpperChar('u');
    }
    assert ToUpper("en") == "EN" by {
      assert ToUpper("en")[0] == UpperChar('e') && ToUpper("en")[1] == UpperChar('n');
    }
  }

  /** On a page `/<lang>/<rest>` the preserved path is `<rest>`. */
  lemma {:induction false} PathWithoutLangOf(lang: string, rest: string)
    requires '/' !in lang
    ensures PathWithoutLang("/" + lang + "/" + rest) == rest
  {
    var p := "/" + lang + "/" + rest;
    assert p == "" + ['/'] + (lang + "/" + rest);
    SplitPrefix("", '/', lang + "/" + rest);
    assert lang + "/" + rest == lang + ['/'] + rest;
    SplitPrefix(lang, '/', rest);
    var segments := Split(p, '/');
    assert segments == [""] + ([lang] + Split(rest, '/'));
    assert segments[2..] == Split(rest, '/');
    JoinSplit(rest, '/');
  }

  /** On a bare language page `/<lang>` nothing is preserved. */
  lemma {:induction false} PathWithoutLangBare(lang: string)
    requires '/' !in lang
    ensures PathWithoutLang("/" + lang) == ""
  {
    assert "/" + lang == "" + ['/'] + lang;
    SplitPrefix("", '/', lang);
    SplitNoSeparator(lang, '/');
    assert Split("/" + lang, '/') == ["", lang];
  }

  /** A bare language page links to `/kk`, `/ru` and `/en` with no trailing slash. */
  lemma {:induction false} BareLanguageTargets(lang: string)
    requires '/' !in lang
    ensures Targets("/" + lang, "") == ["/kk", "/ru", "/en"]
  {
    PathWithoutLangBare(lang);
    var t := Targets("/" + lang, "");
    assert t[0] == "/kk" && t[1] == "/ru" && t[2] == "/en";
  }

  /** Following a switcher link keeps the page: the preserved path of the
      target is the preserved path of the current page. */
  lemma {:induction false} SwitchKeepsPage(pathname: string, lang: string)
    requires '/' !in lang
    ensures PathWithoutLang(NewPath(lang, PathWithoutLang(pathname), "")) == PathWithoutLang(pathname)
  {
    var rest := PathWithoutLang(pathname);
    if rest == "" {
      PathWithoutLangBare(lang);
    } else {
      assert NewPath(lang, rest, "") == "/" + lang + "/" + rest;
      PathWithoutLangOf(lang, rest);
    }
  }
}
