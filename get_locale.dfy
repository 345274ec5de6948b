/** The runtime's `getLocale`: a static locale, then the server request store, then the
    configured strategies in order, the first one yielding a locale deciding the result. The
    first strategy resolution is remembered in the module-level `_locale` and reported once
    through `setLocale(locale, {reload: false})`. `overwriteGetLocale` replaces the resolver. */
module GetLocale {
  import opened Wrappers
  import opened Strings

  /** The generated runtime's constants: `experimentalStaticLocale`, `baseLocale`, `isServer`,
      the `strategy` list, and the five `TREE_SHAKE_*_STRATEGY_USED` flags. */
  datatype LocaleConfig = LocaleConfig(
    experimentalStaticLocale: Option<string>,
    baseLocale: string,
    isServer: bool,
    strategies: seq<string>,
    cookieUsed: bool,
    urlUsed: bool,
    globalVariableUsed: bool,
    preferredLanguageUsed: bool,
    localStorageUsed: bool)

  /** What a registered custom client strategy's handler does when asked: there is no handler
      object, it returns a Promise, or it returns a locale or `undefined`. */
  datatype CustomHandler = NoHandler | AsyncHandler | SyncHandler(result: Option<string>)

  /** What the resolver reads from its surroundings on one call: the request store's locale,
      whether `window` exists, the cookie, URL, navigator and localStorage extractors' results,
      and the registered custom client strategies. */
  datatype LocaleEnvironment = LocaleEnvironment(
    storeLocale: Option<string>,
    hasWindow: bool,
    cookieLocale: Option<string>,
    urlLocale: Option<string>,
    navigatorLocale: Option<string>,
    localStorageLocale: Option<string>,
    customHandlers: map<string, CustomHandler>)

  /** `isCustomStrategy`: a strategy named with the `custom-` prefix. */
  predicate IsCustomStrategy(strategy: string) {
    StartsWith(strategy, "custom-")
  }

  /** A name that does not begin with 'c', or is shorter than the prefix, is not custom. */
  lemma NotCustom(strategy: string)
    requires |strategy| < 7 || (|strategy| > 0 && strategy[0] != 'c')
    ensures !IsCustomStrategy(strategy)
  {
    if |strategy| >= 7 {
      assert strategy[..7][0] != "custom-"[0];
    }
  }

  /** What one loop iteration does to the `locale` variable: assigns it (a locale or
      `undefined`), leaves it as it is, or skips to the next strategy (`continue`). */
  datatype Step = Assigns(value: Option<string>) | Unchanged | SkipsAsync

  /** The strategy names the chain tests for by name. */
  const NamedStrategies: set<string> := {"cookie", "baseLocale", "url", "globalVariable", "preferredLanguage", "localStorage"}

  /** The `if`/`else if` chain of one strategy. `globalLocale` is `_locale`. "baseLocale" always
      assigns the base locale, an enabled "cookie" strategy the cookie's locale, only a custom
      strategy whose handler returns a Promise is skipped, and any other unknown name leaves
      `locale` alone. */
  function StrategyStep(strategy: string, config: LocaleConfig, env: LocaleEnvironment, globalLocale: Option<string>): (step: Step)
    ensures strategy == "baseLocale" ==> step == Assigns(Some(config.baseLocale))
    ensures config.cookieUsed && strategy == "cookie" ==> step == Assigns(env.cookieLocale)
    ensures step.SkipsAsync? <==>
      IsCustomStrategy(strategy) && strategy in env.customHandlers && env.customHandlers[strategy] == AsyncHandler
    ensures !IsCustomStrategy(strategy) && strategy !in NamedStrategies ==> step == Unchanged
  {
    NotCustom("cookie");
    NotCustom("baseLocale");
    NotCustom("url");
    NotCustom("globalVariable");
    NotCustom("preferredLanguage");
    NotCustom("localStorage");
    if config.cookieUsed && strategy == "cookie" then Assigns(env.cookieLocale)
    else if strategy == "baseLocale" then Assigns(Some(config.baseLocale))
    else if config.urlUsed && strategy == "url" && !config.isServer && env.hasWindow then Assigns(env.urlLocale)
    else if config.globalVariableUsed && strategy == "globalVariable" && globalLocale.Some? then Assigns(globalLocale)
    else if config.preferredLanguageUsed && strategy == "preferredLanguage" && !config.isServer then Assigns(env.navigatorLocale)
    else if config.localStorageUsed && strategy == "localStorage" && !config.isServer then Assigns(env.localStorageLocale)
    else if IsCustomStrategy(strategy) && strategy in env.customHandlers then
      match env.customHandlers[strategy]
      case NoHandler => Unchanged
      case AsyncHandler => SkipsAsync
      case SyncHandler(r) => Assigns(r)
    else Unchanged
  }

  /** The locale one strategy yields, when it yields one: the value its step assigns, and
      nothing for a step that assigns nothing. */
  function StrategyLocale(strategy: string, config: LocaleConfig, env: LocaleEnvironment, globalLocale: Option<string>): (locale: Option<string>)
    ensures locale.Some? ==> StrategyStep(strategy, config, env, globalLocale) == Assigns(locale)
    ensures StrategyStep(strategy, config, env, globalLocale).Assigns? ==> locale == StrategyStep(strategy, config, env, globalLocale).value
    ensures !StrategyStep(strategy, config, env, globalLocale).Assigns? ==> locale.None?
  {
    match StrategyStep(strategy, config, env, globalLocale)
    case Assigns(v) => v
    case _ => None
  }

  /** A strategy found a locale at `index` of the strategy list. */
  datatype Found = Found(index: nat, locale: string)

  /** The first strategy, from `from` on, that yields a locale. */
  function FirstResolved(config: LocaleConfig, env: LocaleEnvironment, globalLocale: Option<string>, from: nat): (r: Option<Found>)
    ensures r.Some? ==> (from <= r.value.index < |config.strategies|
      && StrategyLocale(config.strategies[r.value.index], config, env, globalLocale) == Some(r.value.locale))
    ensures r.Some? ==> forall j :: from <= j < r.value.index ==> StrategyLocale(config.strategies[j], config, env, globalLocale).None?
    ensures r.None? ==> forall j :: from <= j < |config.strategies| ==> StrategyLocale(config.strategies[j], config, env, globalLocale).None?
    decreases |config.strategies| - from
  {
    if from >= |config.strategies| then None
    else match StrategyLocale(config.strategies[from], config, env, globalLocale)
      case Some(l) => Some(Found(from, l))
      case None => FirstResolved(config, env, globalLocale, from + 1)
  }

  /** Where the locale comes from. */
  datatype Resolution = Static(locale: string) | FromStore(locale: string) | FromStrategy(found: Found) | Unresolved

  /** A truthy locale in the request store. */
  predicate StoreHasLocale(env: LocaleEnvironment) {
    env.storeLocale.Some? && env.storeLocale.value != ""
  }

  /** The resolution order: the static locale wins outright; then a truthy store locale; then
      the first strategy that yields a locale; otherwise nothing resolves. */
  function Resolve(config: LocaleConfig, env: LocaleEnvironment, globalLocale: Option<string>): (r: Resolution)
    ensures config.experimentalStaticLocale.Some? ==> r == Static(config.experimentalStaticLocale.value)
    ensures config.experimentalStaticLocale.None? && StoreHasLocale(env) ==> r == FromStore(env.storeLocale.value)
    ensures r.FromStrategy? ==>
      config.experimentalStaticLocale.None? && !StoreHasLocale(env)
      && r.found.index < |config.strategies|
      && StrategyLocale(config.strategies[r.found.index], config, env, globalLocale) == Some(r.found.locale)
      && forall j :: 0 <= j < r.found.index ==> StrategyLocale(config.strategies[j], config, env, globalLocale).None?
    ensures r.Unresolved? <==>
      config.experimentalStaticLocale.None? && !StoreHasLocale(env)
      && forall j :: 0 <= j < |config.strategies| ==> StrategyLocale(config.strategies[j], config, env, globalLocale).None?
    ensures config.experimentalStaticLocale.None? && !StoreHasLocale(env) ==>
      r == (match FirstResolved(config, env, globalLocale, 0)
            case Some(f) => FromStrategy(f)
            case None => Unresolved)
  {
    if config.experimentalStaticLocale.Some? then Static(config.experimentalStaticLocale.value)
    else if StoreHasLocale(env) then FromStore(env.storeLocale.value)
    else match FirstResolved(config, env, globalLocale, 0)
      case Some(f) => FromStrategy(f)
      case None => Unresolved
  }

  /** The message of the error thrown when no strategy yields a locale. */
  const NoLocaleFoundMessage := "No locale found. Read the docs https://inlang.com/m/"
    + "gerre34r/library-inlang-paraglideJs/errors#no-locale-found"

  /** The errors `getLocale` throws: `assertIsLocale` rejecting a value, or the `Error` with
      its message when no locale is found. */
  datatype LocaleError = NotALocale(value: string) | NoLocaleFound(message: string)

  /** The locale a resolution yields before `assertIsLocale`, where there is one. */
  function Candidate(r: Resolution): string
    requires !r.Unresolved?
  {
    if r.FromStrategy? then r.found.locale else r.locale
  }

  /** `getLocale`'s result for a resolution. `assertIsLocale` gives the locale it returns, or
      `None` where it throws; the static and strategy locales are replaced by what it returns,
      and the store's locale is returned as it is. */
  function Outcome(r: Resolution, assertIsLocale: string -> Option<string>): (o: Result<string, LocaleError>)
    ensures r.Unresolved? <==> o == Err(NoLocaleFound(NoLocaleFoundMessage))
    ensures r.FromStore? ==> o == Ok(r.locale)
    ensures r.Static? || r.FromStrategy? ==>
      (o.Ok? <==> assertIsLocale(Candidate(r)).Some?)
      && (o.Ok? ==> o.value == assertIsLocale(Candidate(r)).value)
      && (o.Err? ==> o.error == NotALocale(Candidate(r)))
  {
    match r
    case Static(l) => if assertIsLocale(l).Some? then Ok(assertIsLocale(l).value) else Err(NotALocale(l))
    case FromStore(l) => Ok(l)
    case FromStrategy(f) =>
      if assertIsLocale(f.locale).Some? then Ok(assertIsLocale(f.locale).value) else Err(NotALocale(f.locale))
    case Unresolved => Err(NoLocaleFound(NoLocaleFoundMessage))
  }

  /** The "baseLocale" strategy always yields the base locale, so no strategy after it is
      reached and a strategy list holding it always resolves. */
  lemma BaseLocaleEndsSearch(config: LocaleConfig, env: LocaleEnvironment, globalLocale: Option<string>, k: nat)
    requires k < |config.strategies| && config.strategies[k] == "baseLocale"
    requires config.experimentalStaticLocale.None? && !StoreHasLocale(env)
    ensures Resolve(config, env, globalLocale).FromStrategy?
    ensures Resolve(config, env, globalLocale).found.index <= k
  {
    assert StrategyLocale(config.strategies[k], config, env, globalLocale) == Some(config.baseLocale);
  }

  /** On the server the "url", "preferredLanguage" and "localStorage" strategies yield nothing. */
  lemma ServerSkipsClientStrategies(strategy: string, config: LocaleConfig, env: LocaleEnvironment, globalLocale: Option<string>)
    requires config.isServer
    requires strategy == "url" || strategy == "preferredLanguage" || strategy == "localStorage"
    ensures StrategyStep(strategy, config, env, globalLocale) == Unchanged
  {
    NotCustom(strategy);
  }

  /** The "globalVariable" strategy yields nothing while `_locale` is undefined. */
  lemma GlobalVariableNeedsLocale(config: LocaleConfig, env: LocaleEnvironment)
    ensures StrategyStep("globalVariable", config, env, None) == Unchanged
  {
    NotCustom("globalVariable");
  }

  /** A custom strategy whose handler returns a Promise is passed over. */
  lemma AsyncCustomStrategySkipped(strategy: string, config: LocaleConfig, env: LocaleEnvironment, globalLocale: Option<string>)
    requires IsCustomStrategy(strategy) && strategy in env.customHandlers && env.customHandlers[strategy] == AsyncHandler
    ensures StrategyLocale(strategy, config, env, globalLocale).None?
  {
    NotCustom("baseLocale");
    NotCustom("cookie");
    NotCustom("url");
    NotCustom("globalVariable");
    NotCustom("preferredLanguage");
    NotCustom("localStorage");
  }

  /** The runtime module's state: `_locale`, `localeInitiallySet`, the `setLocale` calls made on
      first resolution, and the resolver installed by `overwriteGetLocale`, if any. */
  class LocaleRuntime {
    const config: LocaleConfig
    var globalLocale: Option<string>
    var localeInitiallySet: bool
    var setLocaleCalls: seq<string>
    var overriddenGetLocale: Option<() -> string>

    /** `_locale` is set together with `localeInitiallySet`, by the one `setLocale` call made. */
    ghost predicate Valid()
      reads this
    {
      (localeInitiallySet <==> setLocaleCalls != [])
      && |setLocaleCalls| <= 1
      && (localeInitiallySet ==> globalLocale == Some(setLocaleCalls[0]))
      && (!localeInitiallySet ==> globalLocale.None?)
    }

    constructor (config: LocaleConfig)
      ensures Valid()
      ensures this.config == config && globalLocale.None? && !localeInitiallySet
      ensures setLocaleCalls == [] && overriddenGetLocale.None?
    {
      this.config := config;
      globalLocale := None;
      localeInitiallySet := false;
      setLocaleCalls := [];
      overriddenGetLocale := None;
    }

    /** The resolution a call would make now. */
    function CurrentResolution(env: LocaleEnvironment): Resolution
      reads this
    {
      Resolve(config, env, globalLocale)
    }

    /** `getLocale()`: the installed resolver's value when one was installed; otherwise the
      outcome of the resolution order, where only a strategy resolution made while
      `localeInitiallySet` is false records `_locale` and calls `setLocale`. */
    method GetLocale(env: LocaleEnvironment, assertIsLocale: string -> Option<string>) returns (r: Result<string, LocaleError>)
      requires Valid()
      modifies this`globalLocale, this`localeInitiallySet, this`setLocaleCalls
      ensures Valid()
      ensures overriddenGetLocale.Some? ==> r == Ok(overriddenGetLocale.value())
      ensures overriddenGetLocale.None? ==> r == Outcome(Resolve(config, env, old(globalLocale)), assertIsLocale)
      ensures
        var res := Resolve(config, env, old(globalLocale));
        if overriddenGetLocale.None? && res.FromStrategy? && assertIsLocale(res.found.locale).Some? && !old(localeInitiallySet) then
          var asserted := assertIsLocale(res.found.locale).value;
          globalLocale == Some(asserted) && localeInitiallySet && setLocaleCalls == [asserted]
        else
          globalLocale == old(globalLocale) && localeInitiallySet == old(localeInitiallySet) && setLocaleCalls == old(setLocaleCalls)
    {
      if overriddenGetLocale.Some? {
        return Ok(overriddenGetLocale.value());
      }
      if config.experimentalStaticLocale.Some? {
        var l := config.experimentalStaticLocale.value;
        var asserted := assertIsLocale(l);
        if asserted.Some? {
          return Ok(asserted.value);
        }
        return Err(NotALocale(l));
      }
      var locale: Option<string> := None;
      if env.storeLocale.Some? {
        var stored := env.storeLocale.value;
        if stored != "" {
          return Ok(stored);
        }
      }
      for i := 0 to |config.strategies|
        invariant locale.None?
        invariant FirstResolved(config, env, globalLocale, 0) == FirstResolved(config, env, globalLocale, i)
      {
        var step := StrategyStep(config.strategies[i], config, env, globalLocale);
        if step.SkipsAsync? {
          continue;
        }
        if step.Assigns? {
          locale := step.value;
        }
        if locale.Some? {
          var asserted := assertIsLocale(locale.value);
          if asserted.None? {
            return Err(NotALocale(locale.value));
          }
          if !localeInitiallySet {
            globalLocale := asserted;
            localeInitiallySet := true;
            setLocaleCalls := setLocaleCalls + [asserted.value];
          }
          return Ok(asserted.value);
        }
      }
      return Err(NoLocaleFound(NoLocaleFoundMessage));
    }

    /** `overwriteGetLocale(fn)`: later calls return `fn()`. */
    method OverwriteGetLocale(fn: () -> string)
      modifies this`overriddenGetLocale
      ensures overriddenGetLocale == Some(fn)
    {
      overriddenGetLocale := Some(fn);
    }
  }

  /** Two strategy resolutions in a row, the second on different surroundings: only the first
      records `_locale` and calls `setLocale`. The second call, with a "globalVariable"
      strategy first, now returns the remembered locale, which `assertIsLocale` accepts as it is. */
  method FirstResolutionIsRemembered(baseLocale: string, cookie: string, assertIsLocale: string -> Option<string>)
    returns (first: Result<string, LocaleError>, second: Result<string, LocaleError>, calls: seq<string>)
    requires assertIsLocale(cookie).Some?
    requires assertIsLocale(assertIsLocale(cookie).value) == assertIsLocale(cookie)
    ensures first == Ok(assertIsLocale(cookie).value) && second == first && calls == [assertIsLocale(cookie).value]
  {
    var config := LocaleConfig(None, baseLocale, false, ["globalVariable", "cookie", "baseLocale"], true, false, true, false, false);
    var runtime := new LocaleRuntime(config);
    var env := LocaleEnvironment(None, true, Some(cookie), None, None, None, map[]);
    NotCustom("globalVariable");
    assert config.strategies[0] == "globalVariable" && config.strategies[1] == "cookie";
    assert StrategyLocale("globalVariable", config, env, None).None?;
    assert StrategyLocale("cookie", config, env, None) == Some(cookie);
    assert FirstResolved(config, env, None, 0) == FirstResolved(config, env, None, 1);
    assert Resolve(config, env, None) == FromStrategy(Found(1, cookie));
    first := runtime.GetLocale(env, assertIsLocale);
    var asserted := assertIsLocale(cookie).value;
    var noCookie := env.(cookieLocale := None);
    assert StrategyLocale("globalVariable", config, noCookie, Some(asserted)) == Some(asserted);
    assert Resolve(config, noCookie, Some(asserted)) == FromStrategy(Found(0, asserted));
    second := runtime.GetLocale(noCookie, assertIsLocale);
    calls := runtime.setLocaleCalls;
  }

  /** After `overwriteGetLocale`, the strategies are no longer consulted and nothing is recorded. */
  method OverrideReplacesResolver(config: LocaleConfig, env: LocaleEnvironment, fn: () -> string, assertIsLocale: string -> Option<string>)
    returns (r: Result<string, LocaleError>, calls: seq<string>)
    ensures r == Ok(fn()) && calls == []
  {
    var runtime := new LocaleRuntime(config);
    runtime.OverwriteGetLocale(fn);
    r := runtime.GetLocale(env, assertIsLocale);
    calls := runtime.setLocaleCalls;
  }
}
