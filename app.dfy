/**
 * The state of `AuthApp` in js/app.js with the DOM abstracted away: the
 * theme preference (the current theme, the page's `data-theme` attribute,
 * the theme icon's class and the `localStorage` entry behind them), and the
 * lifecycle of a form submission (the submit button's loading and disabled
 * state, the notification shown, and the reset of the form).
 */
module App {
  import opened Js

  const ThemeKey := "theme"
  const Light := "light"
  const Dark := "dark"
  const MoonIcon := "fas fa-moon"
  const SunIcon := "fas fa-sun"

  /** `getItem` on a store's contents: the value, or `null` (here `None`) when the key is absent. */
  function Lookup(items: map<string, string>, key: string): (v: Option<string>)
    ensures v.Some? <==> key in items
    ensures v.Some? ==> v.value == items[key]
  {
    if key in items then Some(items[key]) else None
  }

  /** `localStorage`: string values under string keys, kept across page loads. */
  class Storage {
    var items: map<string, string>

    /** The store as a page load finds it. */
    constructor (saved: map<string, string>)
      ensures items == saved
    {
      items := saved;
    }

    /** `getItem`: the value saved under the key, or `null` (`None`) when there is none. */
    function GetItem(key: string): (v: Option<string>)
      reads this
      ensures v.Some? <==> key in items
      ensures v.Some? ==> v.value == items[key]
    {
      Lookup(items, key)
    }

    method SetItem(key: string, value: string)
      modifies this
      ensures items == old(items)[key := value]
    {
      items := items[key := value];
    }
  }

  /**
   * `localStorage.getItem('theme') || 'light'`: the saved theme, unless it is
   * missing or the empty string, both of which are falsy.
   */
  function ThemeOrDefault(saved: Option<string>): (theme: string)
    ensures theme != ""
    ensures saved.Some? && saved.value != "" ==> theme == saved.value
    ensures saved.None? || saved.value == "" ==> theme == Light
  {
    if saved.Some? && saved.value != "" then saved.value else Light
  }

  /** The theme `toggleTheme` switches to: dark from light, light from anything else. */
  function Toggled(theme: string): (next: string)
    ensures next == Dark <==> theme == Light
    ensures next == Light <==> theme != Light
  {
    if theme == Light then Dark else Light
  }

  /** The icon's class: the moon on the light theme, the sun on any other. */
  function IconFor(theme: string): (icon: string)
    ensures icon == MoonIcon <==> theme == Light
    ensures icon == SunIcon <==> theme != Light
  {
    if theme == Light then MoonIcon else SunIcon
  }

  /** Toggling twice from light or dark gives the theme back. */
  lemma ToggleTwiceRestores(theme: string)
    requires theme == Light || theme == Dark
    ensures Toggled(Toggled(theme)) == theme
  {
  }

  /** Any other saved theme is replaced by light on the first toggle and never comes back. */
  lemma ToggleLeavesOtherThemes(theme: string)
    requires theme != Light && theme != Dark
    ensures Toggled(theme) == Light && Toggled(Toggled(theme)) == Dark
  {
  }

  /** A theme saved under the theme key is the theme the next load finds. */
  lemma SavedThemeLoads(items: map<string, string>, theme: string)
    requires theme != ""
    ensures ThemeOrDefault(Lookup(items[ThemeKey := theme], ThemeKey)) == theme
  {
  }

  /** What `showNotification` displays: a message and its type. */
  datatype Notification = Notification(message: string, kind: string)

  /** The notification `submitForm` shows for a form type and the API outcome. */
  function SubmitNotification(formType: string, succeeded: bool): (n: Notification)
    ensures n.kind == (if succeeded then "success" else "error")
    ensures succeeded && formType == "login" ==> n.message == "Successfully logged in!"
    ensures succeeded && formType != "login" ==> n.message == "Account created successfully!"
    ensures !succeeded && formType == "login" ==> n.message == "Login failed. Please try again."
    ensures !succeeded && formType != "login" ==> n.message == "Signup failed. Please try again."
  {
    if succeeded then
      Notification(if formType == "login" then "Successfully logged in!" else "Account created successfully!", "success")
    else
      Notification(if formType == "login" then "Login failed. Please try again." else "Signup failed. Please try again.", "error")
  }

  /** The notification tells the outcome and whether the form was the login form. */
  lemma NotificationIdentifiesOutcome(t1: string, s1: bool, t2: string, s2: bool)
    requires SubmitNotification(t1, s1) == SubmitNotification(t2, s2)
    ensures s1 == s2
    ensures t1 == "login" <==> t2 == "login"
  {
    var n1, n2 := SubmitNotification(t1, s1), SubmitNotification(t2, s2);
    assert n1.kind == n2.kind;
    assert |n1.message| == |n2.message|;
  }

  /** A form element: its fields' values and its submit button. */
  class Form {
    var values: seq<string>
    /** The values `form.reset()` restores: the ones the page was loaded with. */
    const defaults: seq<string>
    /** The submit button's `loading` class. */
    var loading: bool
    /** The submit button's `disabled` property. */
    var disabled: bool

    constructor (defaults: seq<string>)
      ensures values == defaults && this.defaults == defaults
      ensures !loading && !disabled
    {
      values := defaults;
      this.defaults := defaults;
      loading := false;
      disabled := false;
    }

    /** `form.reset()`: the fields get their defaults back; the button is left alone. */
    method Reset()
      modifies this
      ensures values == defaults
      ensures loading == old(loading) && disabled == old(disabled)
    {
      values := defaults;
    }
  }

  class AuthApp {
    const storage: Storage
    var currentTheme: string
    /** The `data-theme` attribute of the document element. */
    var dataTheme: string
    /** The class of the `themeIcon` element. */
    var themeIcon: string
    /** The notifications shown so far, the last one on screen. */
    var notifications: seq<Notification>

    /**
     * The class invariant: the page shows the current theme (the `data-theme`
     * attribute and the icon follow it), and the theme is never empty.
     */
    ghost predicate Valid()
      reads this
    {
      currentTheme != "" && dataTheme == currentTheme && themeIcon == IconFor(currentTheme)
    }

    /** The store holds the current theme. */
    predicate Persisted()
      reads this, storage
    {
      storage.GetItem(ThemeKey) == Some(currentTheme)
    }

    /** `new AuthApp()`: starts on the light theme, then loads the saved one. */
    constructor (storage: Storage)
      ensures this.storage == storage && storage.items == old(storage.items)
      ensures Valid() && currentTheme == ThemeOrDefault(Lookup(storage.items, ThemeKey))
      ensures notifications == []
    {
      this.storage := storage;
      currentTheme := Light;
      dataTheme := Light;
      themeIcon := MoonIcon;
      notifications := [];
      new;
      LoadTheme();
    }

    /** `loadTheme`: takes the saved theme, or light, and shows it. */
    method LoadTheme()
      modifies this
      ensures Valid() && currentTheme == ThemeOrDefault(storage.GetItem(ThemeKey))
      ensures notifications == old(notifications)
    {
      currentTheme := ThemeOrDefault(storage.GetItem(ThemeKey));
      dataTheme := currentTheme;
      themeIcon := if currentTheme == Light then MoonIcon else SunIcon;
    }

    /** `saveTheme`: writes the current theme to the store. */
    method SaveTheme()
      requires Valid()
      modifies storage
      ensures Valid()
      ensures storage.items == old(storage.items)[ThemeKey := currentTheme]
      ensures Persisted()
    {
      storage.SetItem(ThemeKey, currentTheme);
    }

    /** `toggleTheme`: switches the theme, shows it, and saves it. */
    method ToggleTheme()
      requires Valid()
      modifies this, storage
      ensures Valid()
      ensures currentTheme == Toggled(old(currentTheme)) && Persisted()
      ensures storage.items == old(storage.items)[ThemeKey := currentTheme]
      ensures notifications == old(notifications)
    {
      currentTheme := if currentTheme == Light then Dark else Light;
      dataTheme := currentTheme;
      themeIcon := if currentTheme == Light then MoonIcon else SunIcon;
      SaveTheme();
    }

    /** `showNotification`: puts a message of a type on screen; the type defaults to `success`. */
    method ShowNotification(message: string, kind: string := "success")
      requires Valid()
      modifies this
      ensures Valid()
      ensures notifications == old(notifications) + [Notification(message, kind)]
      ensures currentTheme == old(currentTheme) && dataTheme == old(dataTheme) && themeIcon == old(themeIcon)
    {
      notifications := notifications + [Notification(message, kind)];
    }

    /**
     * `await this.simulateAPICall()`: the submission waits here for the API.
     * The button is loading and disabled for as long as the call is out.
     */
    ghost method AwaitApiCall(form: Form)
      requires form.loading && form.disabled
    {
    }

    /**
     * `submitForm`: the button is loading and disabled while the API call is
     * out; the call's outcome is `apiSucceeds`. On success it shows the
     * success notification and resets the form; on failure it shows the
     * error notification and leaves the fields alone. Either way the button
     * ends neither loading nor disabled. It does not validate.
     */
    method SubmitForm(form: Form, formType: string, apiSucceeds: bool)
      requires Valid()
      modifies this, form
      ensures Valid()
      ensures !form.loading && !form.disabled
      ensures notifications == old(notifications) + [SubmitNotification(formType, apiSucceeds)]
      ensures form.values == (if apiSucceeds then form.defaults else old(form.values))
      ensures currentTheme == old(currentTheme) && dataTheme == old(dataTheme) && themeIcon == old(themeIcon)
    {
      form.loading := true;
      form.disabled := true;
      AwaitApiCall(form);
      var outcome := SubmitNotification(formType, apiSucceeds);
      ShowNotification(outcome.message, outcome.kind);
      if apiSucceeds {
        form.Reset();
      }
      form.loading := false;
      form.disabled := false;
    }

    /** `handleLogin`: submits the login form. */
    method HandleLogin(form: Form, apiSucceeds: bool)
      requires Valid()
      modifies this, form
      ensures Valid()
      ensures !form.loading && !form.disabled
      ensures notifications == old(notifications) + [SubmitNotification("login", apiSucceeds)]
      ensures form.values == (if apiSucceeds then form.defaults else old(form.values))
      ensures currentTheme == old(currentTheme) && dataTheme == old(dataTheme) && themeIcon == old(themeIcon)
    {
      SubmitForm(form, "login", apiSucceeds);
    }

    /** `handleSignup`: submits the signup form. */
    method HandleSignup(form: Form, apiSucceeds: bool)
      requires Valid()
      modifies this, form
      ensures Valid()
      ensures !form.loading && !form.disabled
      ensures notifications == old(notifications) + [SubmitNotification("signup", apiSucceeds)]
      ensures form.values == (if apiSucceeds then form.defaults else old(form.values))
      ensures currentTheme == old(currentTheme) && dataTheme == old(dataTheme) && themeIcon == old(themeIcon)
    {
      SubmitForm(form, "signup", apiSucceeds);
    }
  }
}
