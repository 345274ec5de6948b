/** `generateStaticLocalizedUrls`: every input URL is expanded into its locale variants, either by
    prefixing the pathname with the locale (the default URL pattern) or through the configured
    URL patterns and `localizeUrl`. The result is `Array.from` of a `Set` of URL objects, so an
    object is emitted once however often it is added, while every URL built here is a new
    object. */
module StaticLocalizedUrls {
  import opened Wrappers

  /** The parts of a URL object the expansion reads and writes. */
  datatype Url = Url(origin: string, pathname: string, search: string, hash: string)

  /** `url.href`. */
  function Href(u: Url): string {
    u.origin + u.pathname + u.search + u.hash
  }

  /** An input: a URL object of the caller (`handle` names the object), or a string that is
      parsed against `http://localhost`. */
  datatype UrlInput = UrlObject(handle: nat, url: Url) | UrlText(text: string)

  /** A URL object held in the result set: the caller's object `handle`, or (with `None`) an
      object created here, which equals no other. */
  datatype UrlValue = UrlValue(handle: Option<nat>, url: Url)

  /** How one `URLPattern` match attempt ends: no match, a match, or a thrown error. */
  datatype MatchOutcome = NoMatch | Matched | MatchThrows

  /** A configured URL pattern: its unlocalized pattern and the locales of its `localized`
      entries, in order. */
  datatype UrlPattern = UrlPattern(pattern: string, localized: seq<string>)

  /** The runtime configuration the expansion reads. */
  datatype UrlConfig = UrlConfig(defaultPatternUsed: bool, locales: seq<string>, baseLocale: string, patterns: seq<UrlPattern>)

  /** The serialised origin of a URL without a host-based origin (a `file:` or `mailto:` URL,
      say). It is no valid base URL. */
  const NullOrigin: string := "null"

  /** `urlInput instanceof URL ? urlInput : new URL(urlInput, "http://localhost")`. `parse`
      gives `None` for a string the URL constructor rejects with a TypeError (such as "//"),
      and then so does this. */
  function ToUrlValue(input: UrlInput, parse: string -> Option<Url>): (v: Option<UrlValue>)
    ensures v.None? <==> input.UrlText? && parse(input.text).None?
    ensures v.Some? ==> (v.value.handle.Some? <==> input.UrlObject?)
    ensures input.UrlObject? ==> v == Some(UrlValue(Some(input.handle), input.url))
    ensures input.UrlText? && v.Some? ==> v.value.url == parse(input.text).value
  {
    match input
    case UrlObject(h, u) => Some(UrlValue(Some(h), u))
    case UrlText(t) => if parse(t).Some? then Some(UrlValue(None, parse(t).value)) else None
  }

  /** Every input converted, in order; `None` when some string is rejected, since that
      conversion is outside any `try` and the whole call throws. */
  function Parsed(urls: seq<UrlInput>, parse: string -> Option<Url>): (r: Option<seq<UrlValue>>)
    ensures r.Some? <==> forall i :: 0 <= i < |urls| ==> ToUrlValue(urls[i], parse).Some?
    ensures r.Some? ==> |r.value| == |urls|
    ensures r.Some? ==> forall i :: 0 <= i < |urls| ==> r.value[i] == ToUrlValue(urls[i], parse).value
    decreases |urls|
  {
    if urls == [] then Some([])
    else
      var init := urls[..|urls| - 1];
      var last := ToUrlValue(urls[|urls| - 1], parse);
      assert forall i :: 0 <= i < |init| ==> init[i] == urls[i];
      match Parsed(init, parse)
      case Some(vs) => if last.Some? then Some(vs + [last.value]) else None
      case None => None
  }

  /** New URL objects for the given URLs. */
  function Created(urls: seq<Url>): (r: seq<UrlValue>)
    ensures |r| == |urls|
    ensures forall k :: 0 <= k < |r| ==> r[k] == UrlValue(None, urls[k])
  {
    if urls == [] then [] else [UrlValue(None, urls[0])] + Created(urls[1..])
  }

  lemma CreatedAppend(urls: seq<Url>, url: Url)
    ensures Created(urls + [url]) == Created(urls) + [UrlValue(None, url)]
  {
  }

  // ---------------------------------------------------------------------------------------
  // The result set

  /** `localizedUrls.add(u)`: a caller's object already present is not added again; every
      other value is appended. */
  function AddUrl(out: seq<UrlValue>, u: UrlValue): (r: seq<UrlValue>)
    ensures u.handle.None? ==> r == out + [u]
    ensures u.handle.Some? ==> (r == out <==> u in out)
    ensures u.handle.Some? && u !in out ==> r == out + [u]
  {
    if u.handle.Some? && u in out then out else out + [u]
  }

  /** Adding several values in order. */
  function Emit(out: seq<UrlValue>, more: seq<UrlValue>): seq<UrlValue>
    decreases |more|
  {
    if more == [] then out else Emit(AddUrl(out, more[0]), more[1..])
  }

  lemma {:induction false} EmitAppend(out: seq<UrlValue>, a: seq<UrlValue>, b: seq<UrlValue>)
    ensures Emit(out, a + b) == Emit(Emit(out, a), b)
    decreases |a|
  {
    if a == [] {
      assert a + b == b;
    } else {
      assert (a + b)[0] == a[0];
      assert (a + b)[1..] == a[1..] + b;
      EmitAppend(AddUrl(out, a[0]), a[1..], b);
    }
  }

  /** New objects are always appended. */
  lemma {:induction false} EmitCreated(out: seq<UrlValue>, urls: seq<Url>)
    ensures Emit(out, Created(urls)) == out + Created(urls)
    decreases |urls|
  {
    if urls != [] {
      var c := Created(urls);
      assert c[0] == UrlValue(None, urls[0]) && c[1..] == Created(urls[1..]);
      assert AddUrl(out, c[0]) == out + [c[0]];
      assert Emit(out, c) == Emit(out + [c[0]], Created(urls[1..]));
      EmitCreated(out + [c[0]], urls[1..]);
      assert out + [c[0]] + Created(urls[1..]) == out + c;
    }
  }

  function HandlesOf(vs: seq<UrlValue>): set<nat> {
    set k | 0 <= k < |vs| && vs[k].handle.Some? :: vs[k].handle.value
  }

  lemma HandlesOfAppend(a: seq<UrlValue>, b: seq<UrlValue>)
    ensures HandlesOf(a + b) == HandlesOf(a) + HandlesOf(b)
  {
    var ab := a + b;
    forall h | h in HandlesOf(ab) ensures h in HandlesOf(a) + HandlesOf(b) {
      var k :| 0 <= k < |ab| && ab[k].handle.Some? && ab[k].handle.value == h;
      if k < |a| { assert ab[k] == a[k]; } else { assert ab[k] == b[k - |a|]; }
    }
    forall h | h in HandlesOf(a) + HandlesOf(b) ensures h in HandlesOf(ab) {
      if h in HandlesOf(a) {
        var k :| 0 <= k < |a| && a[k].handle.Some? && a[k].handle.value == h;
        assert ab[k] == a[k];
      } else {
        var k :| 0 <= k < |b| && b[k].handle.Some? && b[k].handle.value == h;
        assert ab[|a| + k] == b[k];
      }
    }
  }

  lemma HandleMember(vs: seq<UrlValue>, k: nat)
    requires k < |vs| && vs[k].handle.Some?
    ensures vs[k].handle.value in HandlesOf(vs)
  {
  }

  lemma HandlesOfSingle(u: UrlValue)
    ensures HandlesOf([u]) == if u.handle.Some? then {u.handle.value} else {}
  {
    if u.handle.Some? {
      HandleMember([u], 0);
    }
  }

  lemma HandlesOfCreated(urls: seq<Url>)
    ensures HandlesOf(Created(urls)) == {}
  {
  }

  // ---------------------------------------------------------------------------------------
  // The default URL pattern

  /** `new URL("/" + locale + url.pathname + url.search + url.hash, url.origin)`. */
  function Prefixed(url: Url, locale: string): (r: Url)
    ensures r.origin == url.origin && r.search == url.search && r.hash == url.hash
    ensures Href(r) == url.origin + "/" + locale + url.pathname + url.search + url.hash
  {
    Url(url.origin, "/" + locale + url.pathname, url.search, url.hash)
  }

  lemma PrefixedInjective(url: Url, a: string, b: string)
    requires Prefixed(url, a) == Prefixed(url, b)
    ensures a == b
  {
    var pa := "/" + a + url.pathname;
    var pb := "/" + b + url.pathname;
    assert |a| == |b|;
    assert a == pa[1..1 + |a|] && b == pb[1..1 + |b|];
  }

  /** `new URL(localizedPath, url.origin)`: the constructor throws when the origin is "null",
      because "null" is no valid base URL. */
  function PrefixedUrl(url: Url, locale: string): (r: Option<Url>)
    ensures r.None? <==> url.origin == NullOrigin
    ensures r.Some? ==> r.value == Prefixed(url, locale)
  {
    if url.origin == NullOrigin then None else Some(Prefixed(url, locale))
  }

  /** The prefixed variants of one URL: one per locale other than the base locale, in the
      order of `locales`, each on the URL's own origin with its search and hash. */
  function DefaultVariants(url: Url, locales: seq<string>, baseLocale: string): (r: seq<Url>)
    ensures |r| <= |locales|
    ensures forall v :: v in r <==> exists l :: l in locales && l != baseLocale && v == Prefixed(url, l)
  {
    if locales == [] then []
    else
      var rest := DefaultVariants(url, locales[1..], baseLocale);
      assert forall l :: l in locales[1..] ==> l in locales;
      assert forall l :: l in locales ==> l == locales[0] || l in locales[1..];
      (if locales[0] != baseLocale then [Prefixed(url, locales[0])] else []) + rest
  }

  /** A later locale's variant comes after the variants of the locales before it. */
  lemma {:induction false} DefaultVariantsAppend(url: Url, locales: seq<string>, locale: string, baseLocale: string)
    ensures DefaultVariants(url, locales + [locale], baseLocale)
         == DefaultVariants(url, locales, baseLocale) + (if locale != baseLocale then [Prefixed(url, locale)] else [])
    decreases |locales|
  {
    if locales == [] {
      assert ([] + [locale])[1..] == [];
    } else {
      assert (locales + [locale])[1..] == locales[1..] + [locale];
      DefaultVariantsAppend(url, locales[1..], locale, baseLocale);
    }
  }

  /** The base locale never gets a prefixed variant. */
  lemma BaseLocaleNotPrefixed(url: Url, locales: seq<string>, baseLocale: string)
    ensures Prefixed(url, baseLocale) !in DefaultVariants(url, locales, baseLocale)
  {
    if Prefixed(url, baseLocale) in DefaultVariants(url, locales, baseLocale) {
      var l :| l in locales && l != baseLocale && Prefixed(url, baseLocale) == Prefixed(url, l);
      PrefixedInjective(url, baseLocale, l);
    }
  }

  /** Some locale other than the base locale, so the default branch builds prefixed URLs. */
  predicate HasPrefixedLocale(locales: seq<string>, baseLocale: string) {
    exists l :: l in locales && l != baseLocale
  }

  lemma HasPrefixedLocaleAppend(locales: seq<string>, locale: string, baseLocale: string)
    ensures HasPrefixedLocale(locales + [locale], baseLocale) <==> HasPrefixedLocale(locales, baseLocale) || locale != baseLocale
  {
    assert locale in locales + [locale];
    forall l | l in locales ensures l in locales + [locale] { }
  }

  /** The default branch throws when a URL with a "null" origin has to get a prefixed
      variant. */
  predicate PrefixingThrows(values: seq<UrlValue>, locales: seq<string>, baseLocale: string) {
    HasPrefixedLocale(locales, baseLocale) && exists k :: 0 <= k < |values| && values[k].url.origin == NullOrigin
  }

  lemma PrefixingThrowsAppend(values: seq<UrlValue>, url: UrlValue, locales: seq<string>, baseLocale: string)
    ensures PrefixingThrows(values + [url], locales, baseLocale)
        <==> PrefixingThrows(values, locales, baseLocale)
             || (HasPrefixedLocale(locales, baseLocale) && url.url.origin == NullOrigin)
  {
    var all := values + [url];
    assert all[|values|] == url;
    forall k | 0 <= k < |values| ensures all[k] == values[k] { }
  }

  /** What one converted input contributes in the default branch: the URL itself
      (unprefixed, for the base locale), then its prefixed variants. */
  function DefaultExpansion(url: UrlValue, locales: seq<string>, baseLocale: string): seq<UrlValue> {
    [url] + Created(DefaultVariants(url.url, locales, baseLocale))
  }

  /** The default branch: each converted input's expansion added to the result set, in input
      order. */
  function DefaultUrls(values: seq<UrlValue>, locales: seq<string>, baseLocale: string): seq<UrlValue>
    decreases |values|
  {
    if values == [] then []
    else Emit(DefaultUrls(values[..|values| - 1], locales, baseLocale), DefaultExpansion(values[|values| - 1], locales, baseLocale))
  }

  /** The inner loop of the default branch: the prefixed variants of one URL; `None` when
      building one throws. */
  method AddPrefixedVariants(out: seq<UrlValue>, url: Url, locales: seq<string>, baseLocale: string)
    returns (updated: Option<seq<UrlValue>>)
    ensures updated.None? <==> url.origin == NullOrigin && HasPrefixedLocale(locales, baseLocale)
    ensures updated.Some? ==> updated.value == out + Created(DefaultVariants(url, locales, baseLocale))
  {
    var acc := out;
    ghost var noValidBase := url.origin == NullOrigin;
    for j := 0 to |locales|
      invariant acc == out + Created(DefaultVariants(url, locales[..j], baseLocale))
      invariant noValidBase ==> !HasPrefixedLocale(locales[..j], baseLocale)
    {
      DefaultVariantsAppend(url, locales[..j], locales[j], baseLocale);
      HasPrefixedLocaleAppend(locales[..j], locales[j], baseLocale);
      assert locales[..j + 1] == locales[..j] + [locales[j]];
      if locales[j] != baseLocale {
        var localized := PrefixedUrl(url, locales[j]);
        if localized.None? {
          assert locales[j] in locales && locales[j] != baseLocale;
          return None;
        }
        var v := localized.value;
        CreatedAppend(DefaultVariants(url, locales[..j], baseLocale), v);
        acc := AddUrl(acc, UrlValue(None, v));
      }
    }
    assert locales[..|locales|] == locales;
    return Some(acc);
  }

  /** The default branch of `generateStaticLocalizedUrls`: `None` when a conversion or a
      prefixed URL throws. */
  method GenerateDefault(urls: seq<UrlInput>, parse: string -> Option<Url>, locales: seq<string>, baseLocale: string)
    returns (out: Option<seq<UrlValue>>)
    ensures out.None? <==> Parsed(urls, parse).None? || PrefixingThrows(Parsed(urls, parse).value, locales, baseLocale)
    ensures out.Some? ==> Parsed(urls, parse).Some? && out.value == DefaultUrls(Parsed(urls, parse).value, locales, baseLocale)
  {
    var acc: seq<UrlValue> := [];
    for i := 0 to |urls|
      invariant Parsed(urls[..i], parse).Some?
      invariant !PrefixingThrows(Parsed(urls[..i], parse).value, locales, baseLocale)
      invariant acc == DefaultUrls(Parsed(urls[..i], parse).value, locales, baseLocale)
    {
      assert urls[..i + 1][..i] == urls[..i];
      assert urls[..i + 1][i] == urls[i];
      var url := ToUrlValue(urls[i], parse);
      if url.None? {
        return None;
      }
      var before := acc;
      acc := AddUrl(acc, url.value);
      var variants := AddPrefixedVariants(acc, url.value.url, locales, baseLocale);
      if variants.None? {
        assert Parsed(urls, parse).Some? ==> Parsed(urls, parse).value[i] == url.value;
        return None;
      }
      acc := variants.value;
      var vs := Parsed(urls[..i], parse).value;
      assert Parsed(urls[..i + 1], parse) == Some(vs + [url.value]);
      PrefixingThrowsAppend(vs, url.value, locales, baseLocale);
      assert (vs + [url.value])[..i] == vs && (vs + [url.value])[i] == url.value;
      EmitCreated(AddUrl(before, url.value), DefaultVariants(url.value.url, locales, baseLocale));
      EmitAppend(before, [url.value], Created(DefaultVariants(url.value.url, locales, baseLocale)));
    }
    assert urls[..|urls|] == urls;
    return Some(acc);
  }

  /** No URL object of the caller occurs twice among the converted inputs. */
  predicate DistinctObjects(values: seq<UrlValue>) {
    forall i, j :: 0 <= i < j < |values| && values[i].handle.Some? && values[j].handle.Some? ==> values[i].handle != values[j].handle
  }

  lemma DistinctObjectsPrefix(values: seq<UrlValue>)
    requires values != [] && DistinctObjects(values)
    ensures DistinctObjects(values[..|values| - 1])
  {
    var init := values[..|values| - 1];
    forall i, j | 0 <= i < j < |init| ensures init[i] == values[i] && init[j] == values[j] { }
  }

  /** The last input's own object is new to anything holding only objects of the inputs
      before it. */
  lemma LastObjectIsNew(values: seq<UrlValue>, before: seq<UrlValue>)
    requires values != [] && DistinctObjects(values)
    requires HandlesOf(before) <= HandlesOf(values[..|values| - 1])
    ensures values[|values| - 1].handle.Some? ==> values[|values| - 1] !in before
  {
    var init := values[..|values| - 1];
    var url := values[|values| - 1];
    if url.handle.Some? {
      forall k | 0 <= k < |before| ensures before[k] != url {
        if before[k].handle.Some? {
          HandleMember(before, k);
          var i :| 0 <= i < |init| && init[i].handle.Some? && init[i].handle.value == before[k].handle.value;
          assert values[i] == init[i];
        }
      }
    }
  }

  /** Adding a URL that is new to the set, then new objects, appends them all. */
  lemma EmitNewThenCreated(before: seq<UrlValue>, url: UrlValue, urls: seq<Url>)
    requires url.handle.Some? ==> url !in before
    ensures Emit(before, [url] + Created(urls)) == before + ([url] + Created(urls))
  {
    var created := Created(urls);
    calc {
      Emit(before, [url] + created);
      { EmitAppend(before, [url], created); }
      Emit(Emit(before, [url]), created);
      { assert [url][1..] == []; assert AddUrl(before, url) == before + [url]; }
      Emit(before + [url], created);
      { EmitCreated(before + [url], urls); }
      before + [url] + created;
      before + ([url] + created);
    }
  }

  /** The default expansions laid end to end, in input order. */
  function DefaultLayout(values: seq<UrlValue>, locales: seq<string>, baseLocale: string): seq<UrlValue>
    decreases |values|
  {
    if values == [] then []
    else DefaultLayout(values[..|values| - 1], locales, baseLocale) + DefaultExpansion(values[|values| - 1], locales, baseLocale)
  }

  /** The caller's objects that the default layout holds are exactly those among the inputs. */
  lemma {:induction false} DefaultLayoutHandles(values: seq<UrlValue>, locales: seq<string>, baseLocale: string)
    ensures HandlesOf(DefaultLayout(values, locales, baseLocale)) == HandlesOf(values)
    decreases |values|
  {
    if values != [] {
      var init := values[..|values| - 1];
      var url := values[|values| - 1];
      DefaultLayoutHandles(init, locales, baseLocale);
      HandlesOfAppend(DefaultLayout(init, locales, baseLocale), DefaultExpansion(url, locales, baseLocale));
      HandlesOfAppend([url], Created(DefaultVariants(url.url, locales, baseLocale)));
      HandlesOfCreated(DefaultVariants(url.url, locales, baseLocale));
      HandlesOfAppend(init, [url]);
      assert values == init + [url];
    }
  }

  /** When no URL object is passed twice, each input is followed directly by its own variants,
      in input order, and nothing is dropped. */
  lemma {:induction false} DefaultUrlsLayout(values: seq<UrlValue>, locales: seq<string>, baseLocale: string)
    requires DistinctObjects(values)
    ensures DefaultUrls(values, locales, baseLocale) == DefaultLayout(values, locales, baseLocale)
    decreases |values|
  {
    if values != [] {
      var init := values[..|values| - 1];
      var url := values[|values| - 1];
      DistinctObjectsPrefix(values);
      DefaultUrlsLayout(init, locales, baseLocale);
      DefaultLayoutHandles(init, locales, baseLocale);
      LastObjectIsNew(values, DefaultLayout(init, locales, baseLocale));
      EmitNewThenCreated(DefaultLayout(init, locales, baseLocale), url, DefaultVariants(url.url, locales, baseLocale));
    }
  }

  // ---------------------------------------------------------------------------------------
  // Custom URL patterns

  /** The index of the first pattern, from `from` on, whose unlocalized match succeeds;
      patterns that do not match and patterns whose matching throws are passed over. */
  function FirstMatch(patterns: seq<UrlPattern>, url: Url, matches: (UrlPattern, Url) -> MatchOutcome, from: nat): (r: Option<nat>)
    ensures r.Some? ==> from <= r.value < |patterns| && matches(patterns[r.value], url) == Matched
    ensures r.Some? ==> forall k :: from <= k < r.value ==> matches(patterns[k], url) != Matched
    ensures r.None? ==> forall k :: from <= k < |patterns| ==> matches(patterns[k], url) != Matched
    decreases |patterns| - from
  {
    if from >= |patterns| then None
    else if matches(patterns[from], url) == Matched then Some(from)
    else FirstMatch(patterns, url, matches, from + 1)
  }

  /** The inner loop over a pattern's locales: each locale's localised URL whose href has not
      been produced yet, skipping locales whose localisation throws (`None`). */
  function LocalizedVariants(url: Url, locales: seq<string>, localize: (Url, string) -> Option<Url>, seen: set<string>): (r: seq<Url>)
    ensures |r| <= |locales|
    decreases |locales|
  {
    if locales == [] then []
    else
      match localize(url, locales[0])
      case None => LocalizedVariants(url, locales[1..], localize, seen)
      case Some(u) =>
        if Href(u) in seen then LocalizedVariants(url, locales[1..], localize, seen)
        else [u] + LocalizedVariants(url, locales[1..], localize, seen + {Href(u)})
  }

  /** No href is produced twice, and none that was already seen. */
  lemma {:induction false} LocalizedHrefsAreNew(url: Url, locales: seq<string>, localize: (Url, string) -> Option<Url>, seen: set<string>)
    ensures forall k :: (0 <= k < |LocalizedVariants(url, locales, localize, seen)|
                         ==> Href(LocalizedVariants(url, locales, localize, seen)[k]) !in seen)
    ensures forall k, m :: (0 <= k < m < |LocalizedVariants(url, locales, localize, seen)|
                            ==> Href(LocalizedVariants(url, locales, localize, seen)[k])
                                != Href(LocalizedVariants(url, locales, localize, seen)[m]))
    decreases |locales|
  {
    if locales != [] {
      var u := localize(url, locales[0]);
      if u.Some? && Href(u.value) !in seen {
        var h := Href(u.value);
        LocalizedHrefsAreNew(url, locales[1..], localize, seen + {h});
        var rest := LocalizedVariants(url, locales[1..], localize, seen + {h});
        var r := [u.value] + rest;
        assert LocalizedVariants(url, locales, localize, seen) == r;
        forall k | 0 <= k < |r| ensures Href(r[k]) !in seen {
          if k > 0 { assert r[k] == rest[k - 1]; }
        }
        forall k, m | 0 <= k < m < |r| ensures Href(r[k]) != Href(r[m]) {
          assert r[m] == rest[m - 1];
          if k > 0 { assert r[k] == rest[k - 1]; }
        }
      } else {
        assert LocalizedVariants(url, locales, localize, seen) == LocalizedVariants(url, locales[1..], localize, seen);
        LocalizedHrefsAreNew(url, locales[1..], localize, seen);
      }
    }
  }

  /** Every produced URL is the localisation of one of the locales. */
  lemma {:induction false} LocalizedAreLocalizations(url: Url, locales: seq<string>, localize: (Url, string) -> Option<Url>, seen: set<string>, k: nat)
    requires k < |LocalizedVariants(url, locales, localize, seen)|
    ensures exists l :: l in locales && localize(url, l) == Some(LocalizedVariants(url, locales, localize, seen)[k])
    decreases |locales|
  {
    var u := localize(url, locales[0]);
    var r := LocalizedVariants(url, locales, localize, seen);
    if u.Some? && Href(u.value) !in seen {
      if k > 0 {
        LocalizedAreLocalizations(url, locales[1..], localize, seen + {Href(u.value)}, k - 1);
        var l :| l in locales[1..] && localize(url, l) == Some(r[k]);
        assert l in locales;
      } else {
        assert localize(url, locales[0]) == Some(r[k]);
      }
    } else {
      LocalizedAreLocalizations(url, locales[1..], localize, seen, k);
      var l :| l in locales[1..] && localize(url, l) == Some(r[k]);
      assert l in locales;
    }
  }

  /** Some URL of `r` has href `h`. */
  predicate HasHref(r: seq<Url>, h: string) {
    exists k :: 0 <= k < |r| && Href(r[k]) == h
  }

  /** Every locale whose localisation succeeds is represented: its href was seen before or is
      produced. */
  lemma {:induction false} LocalizedCoverLocales(url: Url, locales: seq<string>, localize: (Url, string) -> Option<Url>, seen: set<string>, l: string)
    requires l in locales && localize(url, l).Some?
    ensures Href(localize(url, l).value) in seen || HasHref(LocalizedVariants(url, locales, localize, seen), Href(localize(url, l).value))
    decreases |locales|
  {
    var u := localize(url, locales[0]);
    var h := Href(localize(url, l).value);
    if u.Some? && Href(u.value) !in seen {
      var rest := LocalizedVariants(url, locales[1..], localize, seen + {Href(u.value)});
      var r := [u.value] + rest;
      assert LocalizedVariants(url, locales, localize, seen) == r;
      if l != locales[0] && h != Href(u.value) {
        assert l in locales[1..];
        LocalizedCoverLocales(url, locales[1..], localize, seen + {Href(u.value)}, l);
        if h !in seen {
          var k :| 0 <= k < |rest| && Href(rest[k]) == h;
          assert Href(r[k + 1]) == h;
        }
      } else {
        assert Href(r[0]) == h;
      }
    } else {
      var r := LocalizedVariants(url, locales[1..], localize, seen);
      assert LocalizedVariants(url, locales, localize, seen) == r;
      if l != locales[0] {
        assert l in locales[1..];
        LocalizedCoverLocales(url, locales[1..], localize, seen, l);
      }
    }
  }

  /** What one converted input contributes in the custom branch: the localised variants of
      the first matching pattern, or the URL itself when no pattern matches. */
  function CustomExpansion(url: UrlValue, patterns: seq<UrlPattern>,
                           matches: (UrlPattern, Url) -> MatchOutcome, localize: (Url, string) -> Option<Url>): seq<UrlValue>
  {
    match FirstMatch(patterns, url.url, matches, 0)
    case None => [url]
    case Some(k) => Created(LocalizedVariants(url.url, patterns[k].localized, localize, {}))
  }

  /** The custom branch: each converted input's expansion added to the result set, in input
      order. */
  function CustomUrls(values: seq<UrlValue>, patterns: seq<UrlPattern>,
                      matches: (UrlPattern, Url) -> MatchOutcome, localize: (Url, string) -> Option<Url>): seq<UrlValue>
    decreases |values|
  {
    if values == [] then []
    else Emit(CustomUrls(values[..|values| - 1], patterns, matches, localize),
              CustomExpansion(values[|values| - 1], patterns, matches, localize))
  }

  /** The loop over a matched pattern's locales, with its `seenUrls` set. */
  method AddLocalizedVariants(out: seq<UrlValue>, url: Url, locales: seq<string>, localize: (Url, string) -> Option<Url>)
    returns (updated: seq<UrlValue>)
    ensures updated == out + Created(LocalizedVariants(url, locales, localize, {}))
  {
    updated := out;
    var seenUrls: set<string> := {};
    for j := 0 to |locales|
      invariant updated + Created(LocalizedVariants(url, locales[j..], localize, seenUrls))
             == out + Created(LocalizedVariants(url, locales, localize, {}))
    {
      assert locales[j..][1..] == locales[j + 1..];
      var localized := localize(url, locales[j]);
      if localized.Some? {
        var href := Href(localized.value);
        if href !in seenUrls {
          assert Created([localized.value] + LocalizedVariants(url, locales[j + 1..], localize, seenUrls + {href}))
              == [UrlValue(None, localized.value)] + Created(LocalizedVariants(url, locales[j + 1..], localize, seenUrls + {href}));
          seenUrls := seenUrls + {href};
          updated := AddUrl(updated, UrlValue(None, localized.value));
        }
      }
    }
  }

  /** The pattern loop for one URL: the first matching pattern's variants are added and the loop
      stops; the URL itself is added when none matched. */
  method ExpandWithPatterns(out: seq<UrlValue>, url: UrlValue, patterns: seq<UrlPattern>,
                            matches: (UrlPattern, Url) -> MatchOutcome, localize: (Url, string) -> Option<Url>)
    returns (updated: seq<UrlValue>)
    ensures updated == Emit(out, CustomExpansion(url, patterns, matches, localize))
  {
    updated := out;
    var patternFound := false;
    var p := 0;
    while p < |patterns|
      invariant p <= |patterns|
      invariant !patternFound
      invariant updated == out
      invariant FirstMatch(patterns, url.url, matches, 0) == FirstMatch(patterns, url.url, matches, p)
    {
      var outcome := matches(patterns[p], url.url);
      if outcome != Matched {
        p := p + 1;
        continue;
      }
      patternFound := true;
      updated := AddLocalizedVariants(updated, url.url, patterns[p].localized, localize);
      EmitCreated(out, LocalizedVariants(url.url, patterns[p].localized, localize, {}));
      break;
    }
    if !patternFound {
      updated := AddUrl(updated, url);
    }
  }

  /** The custom-pattern branch of `generateStaticLocalizedUrls`: `None` when a conversion
      throws. */
  method GenerateCustom(urls: seq<UrlInput>, parse: string -> Option<Url>, patterns: seq<UrlPattern>,
                        matches: (UrlPattern, Url) -> MatchOutcome, localize: (Url, string) -> Option<Url>)
    returns (out: Option<seq<UrlValue>>)
    ensures out.None? <==> Parsed(urls, parse).None?
    ensures out.Some? ==> Parsed(urls, parse).Some? && out.value == CustomUrls(Parsed(urls, parse).value, patterns, matches, localize)
  {
    var acc: seq<UrlValue> := [];
    for i := 0 to |urls|
      invariant Parsed(urls[..i], parse).Some?
      invariant acc == CustomUrls(Parsed(urls[..i], parse).value, patterns, matches, localize)
    {
      assert urls[..i + 1][..i] == urls[..i];
      assert urls[..i + 1][i] == urls[i];
      var url := ToUrlValue(urls[i], parse);
      if url.None? {
        return None;
      }
      var vs := Parsed(urls[..i], parse).value;
      assert Parsed(urls[..i + 1], parse) == Some(vs + [url.value]);
      assert (vs + [url.value])[..i] == vs && (vs + [url.value])[i] == url.value;
      acc := ExpandWithPatterns(acc, url.value, patterns, matches, localize);
    }
    assert urls[..|urls|] == urls;
    return Some(acc);
  }

  /** `generateStaticLocalizedUrls`: the default branch iff the default URL pattern is in use;
      `None` when the call throws. */
  method GenerateStaticLocalizedUrls(urls: seq<UrlInput>, config: UrlConfig, parse: string -> Option<Url>,
                                     matches: (UrlPattern, Url) -> MatchOutcome, localize: (Url, string) -> Option<Url>)
    returns (out: Option<seq<UrlValue>>)
    ensures out.None? <==> Parsed(urls, parse).None?
                           || (config.defaultPatternUsed && PrefixingThrows(Parsed(urls, parse).value, config.locales, config.baseLocale))
    ensures out.Some? && config.defaultPatternUsed
        ==> Parsed(urls, parse).Some? && out.value == DefaultUrls(Parsed(urls, parse).value, config.locales, config.baseLocale)
    ensures out.Some? && !config.defaultPatternUsed
        ==> Parsed(urls, parse).Some? && out.value == CustomUrls(Parsed(urls, parse).value, config.patterns, matches, localize)
  {
    if config.defaultPatternUsed {
      out := GenerateDefault(urls, parse, config.locales, config.baseLocale);
    } else {
      out := GenerateCustom(urls, parse, config.patterns, matches, localize);
    }
  }

  /** The custom expansions laid end to end, in input order. */
  function CustomLayout(values: seq<UrlValue>, patterns: seq<UrlPattern>,
                        matches: (UrlPattern, Url) -> MatchOutcome, localize: (Url, string) -> Option<Url>): seq<UrlValue>
    decreases |values|
  {
    if values == [] then []
    else CustomLayout(values[..|values| - 1], patterns, matches, localize)
         + CustomExpansion(values[|values| - 1], patterns, matches, localize)
  }

  /** The custom layout holds no caller's object other than those among the inputs; a matched
      input's own object is replaced by its localisations. */
  lemma {:induction false} CustomLayoutHandles(values: seq<UrlValue>, patterns: seq<UrlPattern>,
                                               matches: (UrlPattern, Url) -> MatchOutcome, localize: (Url, string) -> Option<Url>)
    ensures HandlesOf(CustomLayout(values, patterns, matches, localize)) <= HandlesOf(values)
    decreases |values|
  {
    if values != [] {
      var init := values[..|values| - 1];
      var url := values[|values| - 1];
      CustomLayoutHandles(init, patterns, matches, localize);
      HandlesOfAppend(CustomLayout(init, patterns, matches, localize), CustomExpansion(url, patterns, matches, localize));
      HandlesOfAppend(init, [url]);
      HandlesOfSingle(url);
      match FirstMatch(patterns, url.url, matches, 0)
      case None =>
      case Some(k) => HandlesOfCreated(LocalizedVariants(url.url, patterns[k].localized, localize, {}));
      assert values == init + [url];
    }
  }

  /** When no URL object is passed twice, each input is followed directly by what it
      contributes (its localisations, or itself when no pattern matches), in input order, and
      nothing is dropped. */
  lemma {:induction false} CustomUrlsLayout(values: seq<UrlValue>, patterns: seq<UrlPattern>,
                                            matches: (UrlPattern, Url) -> MatchOutcome, localize: (Url, string) -> Option<Url>)
    requires DistinctObjects(values)
    ensures CustomUrls(values, patterns, matches, localize) == CustomLayout(values, patterns, matches, localize)
    decreases |values|
  {
    if values != [] {
      var init := values[..|values| - 1];
      var url := values[|values| - 1];
      var before := CustomLayout(init, patterns, matches, localize);
      DistinctObjectsPrefix(values);
      CustomUrlsLayout(init, patterns, matches, localize);
      CustomLayoutHandles(init, patterns, matches, localize);
      LastObjectIsNew(values, before);
      match FirstMatch(patterns, url.url, matches, 0)
      case None =>
        assert [url][1..] == [];
        assert Emit(before, [url]) == AddUrl(before, url) == before + [url];
      case Some(k) =>
        EmitCreated(before, LocalizedVariants(url.url, patterns[k].localized, localize, {}));
    }
  }

  /** A pattern that matches, with none before it matching, is the one `FirstMatch` finds. */
  lemma {:induction false} FirstMatchIsFirstMatched(patterns: seq<UrlPattern>, url: Url, matches: (UrlPattern, Url) -> MatchOutcome, from: nat, k: nat)
    requires from <= k < |patterns| && matches(patterns[k], url) == Matched
    requires forall m :: from <= m < k ==> matches(patterns[m], url) != Matched
    ensures FirstMatch(patterns, url, matches, from) == Some(k)
    decreases k - from
  {
    if from < k {
      FirstMatchIsFirstMatched(patterns, url, matches, from + 1, k);
    }
  }

  /** An input that matches no pattern is emitted unchanged. */
  lemma UnmatchedInputIsKept(url: UrlValue, patterns: seq<UrlPattern>,
                             matches: (UrlPattern, Url) -> MatchOutcome, localize: (Url, string) -> Option<Url>)
    requires forall k :: 0 <= k < |patterns| ==> matches(patterns[k], url.url) != Matched
    ensures CustomExpansion(url, patterns, matches, localize) == [url]
  {
  }

  /** A matched input contributes only newly created URLs: the localisations of the first
      pattern that matches, and of no later one. */
  lemma FirstMatchedPatternIsUsed(url: UrlValue, patterns: seq<UrlPattern>,
                                  matches: (UrlPattern, Url) -> MatchOutcome, localize: (Url, string) -> Option<Url>, k: nat)
    requires k < |patterns| && matches(patterns[k], url.url) == Matched
    requires forall m :: 0 <= m < k ==> matches(patterns[m], url.url) != Matched
    ensures CustomExpansion(url, patterns, matches, localize)
         == Created(LocalizedVariants(url.url, patterns[k].localized, localize, {}))
  {
    FirstMatchIsFirstMatched(patterns, url.url, matches, 0, k);
  }
}
