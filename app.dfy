/** The page-level script (assets/js/app.js): the socket parameters and the
    high-contrast theme toggle kept in `localStorage.theme` and mirrored by
    the `high_contrast` class on the root element. */
module App {
  import opened Wrappers

  const HighContrast: string := "high_contrast"
  const Light: string := "light"

  /** `highContrastExpected()` (app.js:63-65); an unset theme is `None`. */
  predicate HighContrastExpected(theme: Option<string>)
  {
    theme == Some(HighContrast)
  }

  /** The theme after a `toggle-high-contrast` event (app.js:74-76). */
  function NextTheme(theme: Option<string>): (r: Option<string>)
    ensures r == Some(Light) || r == Some(HighContrast)
    ensures HighContrastExpected(r) <==> !HighContrastExpected(theme)
  {
    if HighContrastExpected(theme) then Some(Light) else Some(HighContrast)
  }

  /** The root's classes after `initHighContrast()` (app.js:67-72). */
  function RootAfterInit(classes: set<string>, theme: Option<string>): (r: set<string>)
    ensures HighContrast in r <==> HighContrastExpected(theme)
    ensures r - {HighContrast} == classes - {HighContrast}
  {
    if HighContrastExpected(theme) then classes + {HighContrast} else classes - {HighContrast}
  }

  /** Running `initHighContrast` again changes nothing (app.js:67-72). */
  lemma InitIdempotent(classes: set<string>, theme: Option<string>)
    ensures RootAfterInit(RootAfterInit(classes, theme), theme) == RootAfterInit(classes, theme)
  {
  }

  /** Two toggles give back "light" or "high_contrast"; from any other stored
      value, or none, they end at "light" (app.js:74-76). */
  lemma ToggleTwice(theme: Option<string>)
    ensures theme == Some(Light) || theme == Some(HighContrast) ==> NextTheme(NextTheme(theme)) == theme
    ensures theme != Some(Light) && theme != Some(HighContrast) ==> NextTheme(NextTheme(theme)) == Some(Light)
  {
  }

  /** The theme in local storage and the root element's classes. */
  class Page {
    var theme: Option<string>
    var rootClasses: set<string>

    /** Page load: the script ends by calling `initHighContrast` (app.js:80). */
    constructor Load(theme: Option<string>, rootClasses: set<string>)
      ensures this.theme == theme
      ensures this.rootClasses == RootAfterInit(rootClasses, theme)
    {
      this.theme := theme;
      this.rootClasses := rootClasses;
      new;
      InitHighContrast();
    }

    /** `initHighContrast` (app.js:67-72). */
    method InitHighContrast()
      modifies this`rootClasses
      ensures rootClasses == RootAfterInit(old(rootClasses), theme)
    {
      if HighContrastExpected(theme) {
        rootClasses := rootClasses + {HighContrast};
      } else {
        rootClasses := rootClasses - {HighContrast};
      }
    }

    /** The `toggle-high-contrast` handler (app.js:74-78): flip the theme,
        then bring the root class in line with it. */
    method ToggleHighContrast()
      modifies this
      ensures theme == NextTheme(old(theme))
      ensures rootClasses == RootAfterInit(old(rootClasses), theme)
    {
      if HighContrastExpected(theme) {
        theme := Some(Light);
      } else {
        theme := Some(HighContrast);
      }
      InitHighContrast();
    }
  }

  /** After any toggle the root class agrees with the new theme and no other
      class has moved (app.js:74-78). */
  lemma ToggleKeepsClassInStep(classes: set<string>, theme: Option<string>)
    ensures var t := NextTheme(theme);
            var r := RootAfterInit(classes, t);
            (HighContrast in r <==> t == Some(HighContrast)) &&
            (HighContrast in r <==> HighContrast !in RootAfterInit(classes, theme)) &&
            r - {HighContrast} == classes - {HighContrast}
  {
  }

  /** The socket parameters (app.js:26-34): the CSRF token always, and the
      stored anonymous user id when there is a non-empty one. */
  method SocketParams(csrfToken: string, anonUserId: Option<string>) returns (params: map<string, string>)
    ensures "_csrf_token" in params && params["_csrf_token"] == csrfToken
    ensures "anon_user_id" in params <==> anonUserId.Some? && anonUserId.value != ""
    ensures "anon_user_id" in params ==> params["anon_user_id"] == anonUserId.value
    ensures forall k :: k in params ==> k == "_csrf_token" || k == "anon_user_id"
  {
    params := map["_csrf_token" := csrfToken];
    if anonUserId.Some? && anonUserId.value != "" {
      params := params["anon_user_id" := anonUserId.value];
    }
  }
}
