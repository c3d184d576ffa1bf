/** Locale prefixes of path names: the default locale has none, every other locale is the first path
    segment. */
module LocalePath {

  const LOCALES: seq<string> := ["en", "ko", "ja", "zh-CN", "es", "fr", "de", "pt-BR"]
  const DEFAULT_LOCALE := "en"

  predicate StartsWith(s: string, prefix: string) { prefix <= s }

  predicate HasPrefix(path: string, locale: string) {
    path == "/" + locale || StartsWith(path, "/" + locale + "/")
  }

  function StripOver(locales: seq<string>, path: string): string {
    if locales == [] then path
    else
      var prefix := "/" + locales[0];
      if locales[0] == DEFAULT_LOCALE then StripOver(locales[1..], path)
      else if path == prefix then "/"
      else if StartsWith(path, prefix + "/") then
        var rest := path[|prefix|..];
        if rest == "" then "/" else rest
      else StripOver(locales[1..], path)
  }

  function StripLocalePrefix(path: string): string { StripOver(LOCALES, path) }

  function LocaleOver(locales: seq<string>, path: string): string {
    if locales == [] then DEFAULT_LOCALE
    else if locales[0] == DEFAULT_LOCALE then LocaleOver(locales[1..], path)
    else if HasPrefix(path, locales[0]) then locales[0]
    else LocaleOver(locales[1..], path)
  }

  function LocaleFromPathname(path: string): string { LocaleOver(LOCALES, path) }

  function Inner(path: string): string {
    if StartsWith(path, "/") then path else "/" + path
  }

  function WithLocalePrefix(path: string, locale: string): string {
    var inner := Inner(path);
    if locale == DEFAULT_LOCALE then inner
    else if inner == "/" then "/" + locale
    else "/" + locale + inner
  }

  // ---------------------------------------------------------------- a path has one first segment

  predicate IsSegment(s: string) { '/' !in s }

  lemma LocalesAreSegments()
    ensures forall l :: l in LOCALES ==> IsSegment(l)
  {
    assert LOCALES == ["en", "ko", "ja", "zh-CN", "es", "fr", "de", "pt-BR"];
  }

  lemma PrefixUnique(path: string, a: string, b: string)
    requires IsSegment(a) && IsSegment(b) && HasPrefix(path, a) && HasPrefix(path, b)
    ensures a == b
  {
    PrefixNotLonger(path, a, b);
    PrefixNotLonger(path, b, a);
    assert path[1..|a| + 1] == a && path[1..|b| + 1] == b;
  }

  lemma PrefixNotLonger(path: string, a: string, b: string)
    requires IsSegment(a) && IsSegment(b) && HasPrefix(path, a) && HasPrefix(path, b)
    ensures |a| <= |b| && path[1..|a| + 1] == a
  {
    SegmentThenSlash(path, a);
    SegmentThenSlash(path, b);
  }

  lemma SegmentThenSlash(path: string, l: string)
    requires HasPrefix(path, l)
    ensures |path| > |l| && path[1..|l| + 1] == l
    ensures forall i :: 0 <= i < |l| ==> l[i] == path[i + 1]
    ensures |path| > |l| + 1 ==> path[|l| + 1] == '/'
  {
    if path == "/" + l {
      assert path[1..|l| + 1] == l;
    } else {
      assert path[..|l| + 2] == "/" + l + "/";
      assert path[|l| + 1] == ("/" + l + "/")[|l| + 1];
      assert path[1..|l| + 1] == l;
    }
    forall i | 0 <= i < |l| ensures l[i] == path[i + 1] {
      assert path[1..|l| + 1][i] == path[i + 1];
    }
  }

  /** What follows the locale: at least a slash. */
  function Rest(path: string, locale: string): string
    requires HasPrefix(path, locale)
  {
    if path == "/" + locale then "/" else path[|locale| + 1..]
  }

  ghost predicate Prefixed(path: string, locale: string) {
    locale in LOCALES && locale != DEFAULT_LOCALE && HasPrefix(path, locale)
  }

  lemma {:induction false} FoundOver(locales: seq<string>, path: string, locale: string)
    requires forall l :: l in locales ==> IsSegment(l)
    requires locale in locales && locale != DEFAULT_LOCALE && HasPrefix(path, locale)
    ensures StripOver(locales, path) == Rest(path, locale) && LocaleOver(locales, path) == locale
  {
    assert locales == [locales[0]] + locales[1..];
    if locales[0] != locale {
      if locales[0] != DEFAULT_LOCALE && HasPrefix(path, locales[0]) {
        PrefixUnique(path, locales[0], locale);
      }
      FoundOver(locales[1..], path, locale);
    } else if path != "/" + locale {
      assert path[|locale| + 1] == '/';
    }
  }

  lemma {:induction false} NotFoundOver(locales: seq<string>, path: string)
    requires forall l :: l in locales && l != DEFAULT_LOCALE ==> !HasPrefix(path, l)
    ensures StripOver(locales, path) == path && LocaleOver(locales, path) == DEFAULT_LOCALE
  {
    if locales != [] {
      assert locales[0] != DEFAULT_LOCALE ==> !HasPrefix(path, locales[0]);
      NotFoundOver(locales[1..], path);
    }
  }

  lemma PathnameIs(path: string)
    ensures forall l :: Prefixed(path, l) ==>
              StripLocalePrefix(path) == Rest(path, l) && LocaleFromPathname(path) == l
    ensures (forall l :: !Prefixed(path, l)) ==>
              StripLocalePrefix(path) == path && LocaleFromPathname(path) == DEFAULT_LOCALE
  {
    LocalesAreSegments();
    forall l | Prefixed(path, l)
      ensures StripLocalePrefix(path) == Rest(path, l) && LocaleFromPathname(path) == l
    {
      FoundOver(LOCALES, path, l);
    }
    if forall l :: !Prefixed(path, l) {
      forall l | l in LOCALES && l != DEFAULT_LOCALE ensures !HasPrefix(path, l) {
        assert !Prefixed(path, l);
      }
      NotFoundOver(LOCALES, path);
    }
  }

  // ---------------------------------------------------------------- round trips

  /** Adding a prefix and taking it off gives back the path and the locale - exactly when the locale
      is not the default, or no locale prefixes the path already. */
  lemma StripWith(path: string, locale: string)
    requires locale in LOCALES
    ensures
      var q := WithLocalePrefix(path, locale);
      (StripLocalePrefix(q) == Inner(path) && LocaleFromPathname(q) == locale) <==>
      (locale != DEFAULT_LOCALE || forall l :: !Prefixed(Inner(path), l))
  {
    var inner, q := Inner(path), WithLocalePrefix(path, locale);
    PathnameIs(q);
    if locale != DEFAULT_LOCALE {
      if inner != "/" {
        assert inner[0] == '/' && q == ("/" + locale + "/") + inner[1..];
        assert q[|locale| + 1..] == inner;
      }
      assert Prefixed(q, locale);
    } else if exists l :: Prefixed(inner, l) {
      var l :| Prefixed(inner, l);
      assert LocaleFromPathname(inner) == l;
    }
  }

  /** Splitting a path and putting it together again gives it back - exactly when it starts with a
      slash and is not a bare locale root with a trailing slash. */
  lemma WithStrip(path: string)
    ensures WithLocalePrefix(StripLocalePrefix(path), LocaleFromPathname(path)) == path <==>
            StartsWith(path, "/") && forall l :: l in LOCALES && l != DEFAULT_LOCALE ==> path != "/" + l + "/"
  {
    PathnameIs(path);
    if exists l :: Prefixed(path, l) {
      var l :| Prefixed(path, l);
      LocalesAreSegments();
      PrefixedWithStrip(path, l);
    } else {
      forall l | l in LOCALES && l != DEFAULT_LOCALE ensures path != "/" + l + "/" {
        assert !Prefixed(path, l);
      }
    }
  }

  /** The default locale adds no prefix, so a prefix the path came with is what gets stripped. */
  lemma DefaultKeepsOldPrefix()
    ensures WithLocalePrefix("/ko/x", "en") == "/ko/x"
    ensures StripLocalePrefix("/ko/x") == "/x" && LocaleFromPathname("/ko/x") == "ko"
  {
    var path := "/ko/x";
    assert path[..4] == "/ko/" && path[3..] == "/x";
    assert LOCALES[1] == "ko" && Prefixed(path, "ko");
    PathnameIs(path);
  }

  /** A bare locale root loses its trailing slash. */
  lemma TrailingSlashIsLost()
    ensures StripLocalePrefix("/ko/") == "/" && LocaleFromPathname("/ko/") == "ko"
    ensures WithLocalePrefix("/", "ko") == "/ko"
  {
    var path := "/ko/";
    assert path[..4] == "/ko/" && path[3..] == "/";
    assert LOCALES[1] == "ko" && Prefixed(path, "ko");
    PathnameIs(path);
  }

  lemma PrefixedWithStrip(path: string, l: string)
    requires IsSegment(l) && Prefixed(path, l) && (forall m :: m in LOCALES ==> IsSegment(m))
    requires StripLocalePrefix(path) == Rest(path, l) && LocaleFromPathname(path) == l
    ensures StartsWith(path, "/")
    ensures WithLocalePrefix(StripLocalePrefix(path), l) == path <==> path != "/" + l + "/"
    ensures path != "/" + l + "/" ==> forall m :: m in LOCALES && m != DEFAULT_LOCALE ==> path != "/" + m + "/"
  {
    forall m | m in LOCALES && path == "/" + m + "/" ensures m == l {
      assert HasPrefix(path, m);
      PrefixUnique(path, m, l);
    }
    if path != "/" + l {
      var rest := path[|l| + 1..];
      assert path[..|l| + 2] == "/" + l + "/";
      assert rest[0] == '/' && path == "/" + l + rest;
      assert rest == "/" <==> path == "/" + l + "/";
    }
  }
}
