/**
 * The theme toggle of the static site (static/assets/js/dark-mode.js): at
 * load a stored choice wins over the system preference, and the toggle
 * button flips the theme and stores "dark" or "light". Only the
 * `dark-theme` class of the root element is managed; storage is never
 * cleaned up at load.
 */
module DarkModeStatic {
  import opened Wrappers
  import opened ThemeToggle

  /** The managed elements show the theme `isDark`. */
  predicate Shows(p: Page, env: Env, isDark: bool) {
    p.darkTheme == isDark
    && (env.hasButton ==> p.ariaChecked == Some(AriaChecked(isDark)))
    && (env.hasMeta ==> p.themeColor == Some(ThemeColor(isDark)))
  }

  /**
   * `setThemeState`: the `dark-theme` class, the attribute and the meta
   * content follow the flag where their element exists; the `light-theme`
   * class, storage and a missing element's state are untouched.
   */
  function Themed(p: Page, env: Env, isDark: bool): (r: Page)
    ensures Shows(r, env, isDark)
    ensures r.lightTheme == p.lightTheme && r.stored == p.stored
    ensures !env.hasButton ==> r.ariaChecked == p.ariaChecked
    ensures !env.hasMeta ==> r.themeColor == p.themeColor
  {
    Page(isDark, p.lightTheme,
         if env.hasButton then Some(AriaChecked(isDark)) else p.ariaChecked,
         if env.hasMeta then Some(ThemeColor(isDark)) else p.themeColor,
         p.stored)
  }

  /** The theme chosen at load: a stored "dark", or the system preference when nothing is stored. */
  function DefaultDark(saved: Option<string>, prefersDark: bool): (r: bool)
    ensures saved == Some("dark") ==> r
    ensures saved.Some? && saved != Some("dark") ==> !r
    ensures saved == None ==> r == prefersDark
  {
    saved == Some("dark") || (saved == None && prefersDark)
  }

  /** The load handler before its handlers are attached: the page shows the default theme. */
  function Started(p: Page, env: Env): (r: Page)
    ensures Shows(r, env, DefaultDark(p.stored, env.prefersDark))
    ensures r.stored == p.stored && r.lightTheme == p.lightTheme
  {
    Themed(p, env, DefaultDark(p.stored, env.prefersDark))
  }

  /** The value stored for a theme. */
  function StoredTheme(isDark: bool): string {
    if isDark then "dark" else "light"
  }

  /** The click handler: the theme opposite to the one the root shows, stored by name. */
  function Toggled(p: Page, env: Env): (r: Page)
    ensures Shows(r, env, !p.darkTheme)
    ensures r.stored == Some(StoredTheme(r.darkTheme))
    ensures r.lightTheme == p.lightTheme
  {
    var isDark := !p.darkTheme;
    Themed(p, env, isDark).(stored := Some(StoredTheme(isDark)))
  }

  /** The keydown handler: Enter and Space toggle, every other key changes nothing. */
  function AfterKey(p: Page, env: Env, key: string): (r: Page)
    ensures ActivationKey(key) ==> r == Toggled(p, env)
    ensures !ActivationKey(key) ==> r == p
  {
    if ActivationKey(key) then Toggled(p, env) else p
  }

  function Handled(p: Page, env: Env, e: Event): Page {
    match e
    case Click => Toggled(p, env)
    case Keydown(key) => AfterKey(p, env, key)
  }

  /** The events in order; without a button no handler is attached and nothing happens. */
  function Run(p: Page, env: Env, events: seq<Event>): Page
    decreases |events|
  {
    if events == [] || !env.hasButton then p
    else Run(Handled(p, env, events[0]), env, events[1..])
  }

  /** Storage names the theme the page shows. */
  predicate Persisted(p: Page) {
    p.stored == Some(StoredTheme(p.darkTheme))
  }

  /** Two toggles give back the theme, and the whole page once storage names the theme. */
  lemma ToggledTwice(p: Page, env: Env)
    requires Shows(p, env, p.darkTheme)
    ensures var r := Toggled(Toggled(p, env), env);
      r.darkTheme == p.darkTheme && Shows(r, env, p.darkTheme) && Persisted(r)
    ensures Persisted(p) ==> Toggled(Toggled(p, env), env) == p
  {
  }

  /** Every handled event keeps the page showing its flag, and flips it exactly when it should. */
  lemma HandledShows(p: Page, env: Env, e: Event)
    requires Shows(p, env, p.darkTheme)
    ensures Shows(Handled(p, env, e), env, Handled(p, env, e).darkTheme)
    ensures Handled(p, env, e).darkTheme == (p.darkTheme != Flips(e))
    ensures Handled(p, env, e).lightTheme == p.lightTheme
    ensures Flips(e) ==> Persisted(Handled(p, env, e))
    ensures !Flips(e) ==> Handled(p, env, e) == p
  {
    match e
    case Click =>
    case Keydown(key) =>
  }

  /**
   * With a button, the theme after a run is the starting one flipped once
   * per flipping event, storage names it once anything flipped, and the
   * `light-theme` class is never touched.
   */
  lemma {:induction false} RunFacts(p: Page, env: Env, events: seq<Event>)
    requires Shows(p, env, p.darkTheme) && env.hasButton
    ensures Shows(Run(p, env, events), env, Run(p, env, events).darkTheme)
    ensures Run(p, env, events).darkTheme == (p.darkTheme != (FlipCount(events) % 2 == 1))
    ensures Run(p, env, events).lightTheme == p.lightTheme
    ensures Persisted(p) || FlipCount(events) > 0 ==> Persisted(Run(p, env, events))
    ensures FlipCount(events) == 0 ==> Run(p, env, events) == p
    decreases |events|
  {
    if events != [] {
      HandledShows(p, env, events[0]);
      RunFacts(Handled(p, env, events[0]), env, events[1..]);
    }
  }

  /**
   * From load on: the page shows its flag, the theme is the default one
   * flipped once per flipping event, and storage is what was there at load
   * until the first flip and names the theme after it.
   */
  lemma SessionFacts(p: Page, env: Env, events: seq<Event>)
    ensures var r := Run(Started(p, env), env, events);
      Shows(r, env, r.darkTheme)
      && r.darkTheme == (DefaultDark(p.stored, env.prefersDark) != (env.hasButton && FlipCount(events) % 2 == 1))
    ensures !env.hasButton || FlipCount(events) == 0 ==> Run(Started(p, env), env, events).stored == p.stored
    ensures env.hasButton && FlipCount(events) > 0 ==> Persisted(Run(Started(p, env), env, events))
  {
    if env.hasButton {
      RunFacts(Started(p, env), env, events);
    }
  }

  /**
   * The document as the script sees it. Local storage is the field
   * `stored`; `listening` records whether the button's handlers were attached.
   */
  class Document {
    const hasButton: bool
    const hasMeta: bool
    const prefersDark: bool
    var darkTheme: bool
    var lightTheme: bool
    var ariaChecked: Option<string>
    var themeColor: Option<string>
    var stored: Option<string>
    var listening: bool

    function Snapshot(): Page
      reads this
    {
      Page(darkTheme, lightTheme, ariaChecked, themeColor, stored)
    }

    function Environment(): Env {
      Env(hasButton, hasMeta, prefersDark)
    }

    /** The document before its content-loaded event. */
    constructor (env: Env, p: Page)
      ensures Environment() == env && Snapshot() == p && !listening
    {
      hasButton, hasMeta, prefersDark := env.hasButton, env.hasMeta, env.prefersDark;
      darkTheme, lightTheme, ariaChecked, themeColor, stored :=
        p.darkTheme, p.lightTheme, p.ariaChecked, p.themeColor, p.stored;
      listening := false;
    }

    /** `setThemeState`. */
    method SetThemeState(isDark: bool)
      modifies this
      ensures Snapshot() == Themed(old(Snapshot()), Environment(), isDark)
      ensures listening == old(listening)
    {
      darkTheme := isDark;
      if hasButton {
        ariaChecked := Some(AriaChecked(isDark));
      }
      if hasMeta {
        themeColor := Some(ThemeColor(isDark));
      }
    }

    /**
     * The content-loaded handler, which runs once: initial theme, then the
     * handlers if there is a button.
     */
    method ContentLoaded()
      requires !listening
      modifies this
      ensures Snapshot() == Started(old(Snapshot()), Environment())
      ensures listening == hasButton
    {
      var savedTheme := stored;
      var defaultDark := savedTheme == Some("dark") || (savedTheme == None && prefersDark);
      SetThemeState(defaultDark);
      if !hasButton {
        return;
      }
      listening := true;
    }

    /** The body shared by both handlers: flip the theme the root shows and store its name. */
    method Toggle()
      modifies this
      ensures Snapshot() == Toggled(old(Snapshot()), Environment())
      ensures listening == old(listening)
    {
      var isDark := !darkTheme;
      SetThemeState(isDark);
      stored := Some(if isDark then "dark" else "light");
    }

    /** A click on the button. */
    method Click()
      modifies this
      ensures Snapshot() == if old(listening) then Toggled(old(Snapshot()), Environment()) else old(Snapshot())
      ensures listening == old(listening)
    {
      if listening {
        Toggle();
      }
    }

    /** A key pressed on the button; `prevented` tells whether its default action was suppressed. */
    method Keydown(key: string) returns (prevented: bool)
      modifies this
      ensures prevented <==> old(listening) && ActivationKey(key)
      ensures Snapshot() == if old(listening) then AfterKey(old(Snapshot()), Environment(), key) else old(Snapshot())
      ensures listening == old(listening)
    {
      prevented := false;
      if listening && (key == "Enter" || key == " ") {
        prevented := true;
        Toggle();
      }
    }
  }
}
