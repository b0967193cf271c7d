/**
 * What the two theme-toggle scripts (public/assets/js/dark-mode.js and
 * static/assets/js/dark-mode.js) have in common: the part of the page they
 * touch, the values they write into it, and the events the toggle button
 * receives.
 */
module ThemeToggle {
  import opened Wrappers

  const DarkColor := "#1f1f1f"
  const LightColor := "#f7f7f5"

  /** The `aria-checked` value of the button for a theme. */
  function AriaChecked(isDark: bool): string {
    if isDark then "true" else "false"
  }

  /** The theme-color meta `content` for a theme. */
  function ThemeColor(isDark: bool): string {
    if isDark then DarkColor else LightColor
  }

  /**
   * The state the scripts read and write: whether the root element has the
   * `dark-theme` and `light-theme` classes, the button's `aria-checked`, the
   * meta element's `content` (`None` when unset) and the `theme` entry of
   * local storage (`None` when absent).
   */
  datatype Page = Page(darkTheme: bool, lightTheme: bool, ariaChecked: Option<string>,
                       themeColor: Option<string>, stored: Option<string>)

  /** What the scripts read once and never change: which elements exist and the system preference. */
  datatype Env = Env(hasButton: bool, hasMeta: bool, prefersDark: bool)

  /** The keys the keydown handler treats as a press of the button. */
  predicate ActivationKey(key: string) {
    key == "Enter" || key == " "
  }

  /** An event delivered to the toggle button after load. */
  datatype Event = Click | Keydown(key: string)

  /** Whether an event flips the theme. */
  predicate Flips(e: Event) {
    e.Click? || ActivationKey(e.key)
  }

  /** The number of events that flip the theme. */
  function FlipCount(events: seq<Event>): nat {
    if events == [] then 0
    else (if Flips(events[0]) then 1 else 0) + FlipCount(events[1..])
  }
}
