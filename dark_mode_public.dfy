/**
 * The theme toggle of the Jekyll site (public/assets/js/dark-mode.js): at
 * load it picks the theme from the system preference and a stored "dark"
 * choice, and the toggle button flips it and persists only a dark choice.
 * Both theme classes of the root element are managed.
 */
module DarkModePublic {
  import opened Wrappers
  import opened ThemeToggle

  /** Every element the script manages shows the theme `isDark`. */
  predicate Shows(p: Page, env: Env, isDark: bool) {
    p.darkTheme == isDark && p.lightTheme == !isDark
    && (env.hasButton ==> p.ariaChecked == Some(AriaChecked(isDark)))
    && (env.hasMeta ==> p.themeColor == Some(ThemeColor(isDark)))
  }

  /**
   * `setThemeState`: the two classes become complementary, and the attribute
   * and the meta content follow the flag where their element exists;
   * storage and a missing element's state are untouched.
   */
  function Themed(p: Page, env: Env, isDark: bool): (r: Page)
    ensures Shows(r, env, isDark)
    ensures r.darkTheme != r.lightTheme
    ensures r.stored == p.stored
    ensures !env.hasButton ==> r.ariaChecked == p.ariaChecked
    ensures !env.hasMeta ==> r.themeColor == p.themeColor
  {
    Page(isDark, !isDark,
         if env.hasButton then Some(AriaChecked(isDark)) else p.ariaChecked,
         if env.hasMeta then Some(ThemeColor(isDark)) else p.themeColor,
         p.stored)
  }

  /** The theme chosen at load from what was stored before the clean-up. */
  function DefaultDark(saved: Option<string>, prefersDark: bool): bool {
    prefersDark || saved == Some("dark")
  }

  /**
   * The load handler before its handlers are attached: a stored "light" is
   * deleted, then the page shows the default theme.
   */
  function Started(p: Page, env: Env): (r: Page)
    ensures r.stored != Some("light")
    ensures p.stored == Some("light") ==> r.stored == None
    ensures p.stored != Some("light") ==> r.stored == p.stored
    ensures Shows(r, env, env.prefersDark || p.stored == Some("dark"))
  {
    var stored := if p.stored == Some("light") then None else p.stored;
    Themed(p.(stored := stored), env, DefaultDark(p.stored, env.prefersDark))
  }

  /**
   * The click handler: the theme opposite to the one the root shows, with
   * "dark" stored for dark and the entry removed for light.
   */
  function Toggled(p: Page, env: Env): (r: Page)
    ensures Shows(r, env, !p.darkTheme)
    ensures r.stored == (if r.darkTheme then Some("dark") else None)
  {
    var isDark := !p.darkTheme;
    Themed(p, env, isDark).(stored := if isDark then Some("dark") else None)
  }

  /** The keydown handler: Enter and Space toggle, every other key changes nothing. */
  function AfterKey(p: Page, env: Env, key: string): (r: Page)
    ensures ActivationKey(key) ==> r == Toggled(p, env)
    ensures !ActivationKey(key) ==> r == p
  {
    if ActivationKey(key) then Toggled(p, env) else p
  }

  function Handled(p: Page, env: Env, e: Event): Page {
    match e
    case Click => Toggled(p, env)
    case Keydown(key) => AfterKey(p, env, key)
  }

  /** The events in order; without a button no handler is attached and nothing happens. */
  function Run(p: Page, env: Env, events: seq<Event>): Page
    decreases |events|
  {
    if events == [] || !env.hasButton then p
    else Run(Handled(p, env, events[0]), env, events[1..])
  }

  /** The state every handler leaves: the page shows its own flag and storage never holds "light". */
  predicate Settled(p: Page, env: Env) {
    Shows(p, env, p.darkTheme) && p.stored != Some("light")
  }

  /** Every handled event keeps the page settled and flips the theme exactly when it should. */
  lemma HandledSettled(p: Page, env: Env, e: Event)
    requires Settled(p, env)
    ensures Settled(Handled(p, env, e), env)
    ensures Handled(p, env, e).darkTheme == (p.darkTheme != Flips(e))
    ensures !Flips(e) ==> Handled(p, env, e) == p
  {
    match e
    case Click =>
    case Keydown(key) =>
  }

  /** Whatever events follow, the page stays settled. */
  lemma {:induction false} RunSettled(p: Page, env: Env, events: seq<Event>)
    requires Settled(p, env)
    ensures Settled(Run(p, env, events), env)
    decreases |events|
  {
    if events != [] && env.hasButton {
      HandledSettled(p, env, events[0]);
      RunSettled(Handled(p, env, events[0]), env, events[1..]);
    }
  }

  /** With a button, the theme after a run is the starting one flipped once per flipping event. */
  lemma {:induction false} RunFlips(p: Page, env: Env, events: seq<Event>)
    requires Settled(p, env) && env.hasButton
    ensures Run(p, env, events).darkTheme == (p.darkTheme != (FlipCount(events) % 2 == 1))
    decreases |events|
  {
    if events != [] {
      HandledSettled(p, env, events[0]);
      RunFlips(Handled(p, env, events[0]), env, events[1..]);
    }
  }

  /** Storage records the theme the page shows: "dark", or no entry for light. */
  predicate Persisted(p: Page) {
    p.stored == (if p.darkTheme then Some("dark") else None)
  }

  /** Once storage records the theme, it keeps doing so. */
  lemma {:induction false} RunPersisted(p: Page, env: Env, events: seq<Event>)
    requires Settled(p, env) && Persisted(p)
    ensures Persisted(Run(p, env, events))
    decreases |events|
  {
    if events != [] && env.hasButton {
      HandledSettled(p, env, events[0]);
      RunPersisted(Handled(p, env, events[0]), env, events[1..]);
    }
  }

  /** After the first flipping event, storage records the theme. */
  lemma {:induction false} RunStored(p: Page, env: Env, events: seq<Event>)
    requires Settled(p, env) && env.hasButton && FlipCount(events) > 0
    ensures Persisted(Run(p, env, events))
    decreases |events|
  {
    HandledSettled(p, env, events[0]);
    var q := Handled(p, env, events[0]);
    if Flips(events[0]) {
      RunPersisted(q, env, events[1..]);
    } else {
      RunStored(q, env, events[1..]);
    }
  }

  /**
   * From load on: the page is settled, storage never holds "light", and the
   * theme is the default one flipped once per flipping event (never flipped
   * without a button); after the first flip storage records the theme.
   */
  lemma SessionFacts(p: Page, env: Env, events: seq<Event>)
    ensures Settled(Run(Started(p, env), env, events), env)
    ensures Run(Started(p, env), env, events).darkTheme
      == (DefaultDark(p.stored, env.prefersDark) != (env.hasButton && FlipCount(events) % 2 == 1))
    ensures env.hasButton && FlipCount(events) > 0 ==> Persisted(Run(Started(p, env), env, events))
  {
    var s := Started(p, env);
    RunSettled(s, env, events);
    if env.hasButton {
      RunFlips(s, env, events);
      if FlipCount(events) > 0 {
        RunStored(s, env, events);
      }
    }
  }

  /** Once storage agrees with a settled page, two toggles give back the same page. */
  lemma ToggledTwice(p: Page, env: Env)
    requires Settled(p, env) && Persisted(p)
    ensures Toggled(Toggled(p, env), env) == p
  {
  }

  /**
   * The document as the script sees it. Local storage is the field
   * `stored`; `listening` records whether the button's handlers were attached.
   */
  class Document {
    const hasButton: bool
    const hasMeta: bool
    const prefersDark: bool
    var darkTheme: bool
    var lightTheme: bool
    var ariaChecked: Option<string>
    var themeColor: Option<string>
    var stored: Option<string>
    var listening: bool

    function Snapshot(): Page
      reads this
    {
      Page(darkTheme, lightTheme, ariaChecked, themeColor, stored)
    }

    function Environment(): Env {
      Env(hasButton, hasMeta, prefersDark)
    }

    /** The document before its content-loaded event. */
    constructor (env: Env, p: Page)
      ensures Environment() == env && Snapshot() == p && !listening
    {
      hasButton, hasMeta, prefersDark := env.hasButton, env.hasMeta, env.prefersDark;
      darkTheme, lightTheme, ariaChecked, themeColor, stored :=
        p.darkTheme, p.lightTheme, p.ariaChecked, p.themeColor, p.stored;
      listening := false;
    }

    /** `setThemeState`. */
    method SetThemeState(isDark: bool)
      modifies this
      ensures Snapshot() == Themed(old(Snapshot()), Environment(), isDark)
      ensures listening == old(listening)
    {
      darkTheme := isDark;
      lightTheme := !isDark;
      if hasButton {
        ariaChecked := Some(AriaChecked(isDark));
      }
      if hasMeta {
        themeColor := Some(ThemeColor(isDark));
      }
    }

    /**
     * The content-loaded handler, which runs once: clean-up, initial theme,
     * then the handlers if there is a button.
     */
    method ContentLoaded()
      requires !listening
      modifies this
      ensures Snapshot() == Started(old(Snapshot()), Environment())
      ensures listening == hasButton
    {
      var savedTheme := stored;
      if savedTheme == Some("light") {
        stored := None;
      }
      var defaultDark := prefersDark || savedTheme == Some("dark");
      SetThemeState(defaultDark);
      if !hasButton {
        return;
      }
      listening := true;
    }

    /** The body shared by both handlers: flip the theme the root shows and persist it. */
    method Toggle()
      modifies this
      ensures Snapshot() == Toggled(old(Snapshot()), Environment())
      ensures listening == old(listening)
    {
      var isDark := !darkTheme;
      SetThemeState(isDark);
      if isDark {
        stored := Some("dark");
      } else {
        stored := None;
      }
    }

    /** A click on the button. */
    method Click()
      modifies this
      ensures Snapshot() == if old(listening) then Toggled(old(Snapshot()), Environment()) else old(Snapshot())
      ensures listening == old(listening)
    {
      if listening {
        Toggle();
      }
    }

    /** A key pressed on the button; `prevented` tells whether its default action was suppressed. */
    method Keydown(key: string) returns (prevented: bool)
      modifies this
      ensures prevented <==> old(listening) && ActivationKey(key)
      ensures Snapshot() == if old(listening) then AfterKey(old(Snapshot()), Environment(), key) else old(Snapshot())
      ensures listening == old(listening)
    {
      prevented := false;
      if listening && (key == "Enter" || key == " ") {
        prevented := true;
        Toggle();
      }
    }
  }
}
