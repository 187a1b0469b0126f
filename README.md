# Auth-Template form logic in Dafny

A model of the logic behind the login/signup page of Auth-Template:

- the `FormValidator` of js/form-handler.js. This covers the email and password regular expressions, read character by character, and the trimmed-name length rule. It also covers `validateForm`, which builds the ordered list of error messages, and `getPasswordStrength`, the 0..5 score.
- the key derivation of `FormHandler.getFormData`. The form's inputs are a sequence of (id, value) pairs, and each value is stored under the id with `login` and `signup` removed, lower-cased.
- the `AuthApp` of js/app.js with the DOM abstracted away. This covers the theme preference (`toggleTheme`, `loadTheme` and `saveTheme` over a `localStorage` store) and the life of a form submission in `submitForm`. That is the button's loading and disabled state, the single notification, and the form reset on success only.

The JavaScript built-ins the code relies on are in module `Js` (js.dfy):

- `String(undefined)`;
- the `\s` class and `trim` over the ECMAScript whitespace and line-terminator code points;
- `length` in UTF-16 code units;
- `indexOf`;
- `replace` of the first occurrence;
- `toLowerCase`.

Strings are sequences of Unicode scalar values.

`validateForm` on a signup form whose data has no `name` calls `undefined.trim()`, which throws a TypeError. The model returns `Throw("TypeError")` in that case. The error list is therefore not always returned, and the "mismatch reported once" property holds for signup data that has a name. `submitForm` never calls the validator (js/app.js:124-154); the model follows the code, and `SubmitForm` does not validate.

An input whose derived key is `__proto__` is not stored: assigning a string to that key of a plain object reaches the setter inherited from `Object.prototype`, which ignores it. `CollectBy` and `GetFormData` skip that assignment.

## Model

| member | source | states |
|---|---|---|
| Js.ToString | js/form-handler.js:9-15 | a present field reaches `test` as its own string, and a missing one as the string `undefined` |
| Js.IsWhitespace | js/form-handler.js:4 | `\s` holds every line terminator, no printable ASCII character and no astral character |
| Js.Utf16Length | js/form-handler.js:18 | `length` counts at least one and at most two code units per character |
| Js.TrimStart | js/form-handler.js:18 | trimming the start removes only whitespace, and what is left is a suffix of the input that is empty or starts with a non-whitespace character |
| Js.TrimEnd | js/form-handler.js:18 | trimming the end removes only whitespace, and what is left is a prefix of the input that is empty or ends with a non-whitespace character |
| Js.Trim | js/form-handler.js:18 | `trim` leaves a string that neither starts nor ends with whitespace and is no longer than the input |
| Js.TrimSlice | js/form-handler.js:18 | what `trim` keeps is one contiguous slice of the name, and every character outside that slice is whitespace |
| Js.Utf16AtLeastTwo | js/form-handler.js:18 | a string has `length >= 2` in UTF-16 units exactly when it has two characters or one astral character |
| Js.IndexOfFrom | js/form-handler.js:68 | `indexOf` returns the first index at or after the start where the pattern occurs, or -1 when it occurs nowhere |
| Js.IndexOf | js/form-handler.js:68 | `indexOf` returns an index where the pattern occurs with no occurrence before it, or -1 when it occurs nowhere |
| Js.RemoveFirst | js/form-handler.js:68 | `replace(p, '')` returns the string unchanged when `p` is absent; otherwise it is shorter by the length of `p` and putting `p` back at the first occurrence gives the input again |
| Js.ToLowerCase | js/form-handler.js:68 | `toLowerCase` keeps the length, maps every character through the ASCII lower-casing, and leaves no upper-case letter |
| FormValidator.EmailPattern | js/form-handler.js:4 | the email pattern matches exactly when there is no whitespace, exactly one `@`, at least one character before it, and after it a `.` with a character on each side |
| FormValidator.ValidateEmail | js/form-handler.js:9-11 | an accepted email has at least five characters; `EmailPattern` gives the full rule |
| FormValidator.EmailExampleValid | js/form-handler.js:9-11 | `validateEmail("a@b.co")` is true |
| FormValidator.LineEnd | js/form-handler.js:5 | `.*` in a lookahead stops at the first line terminator: the returned index is that terminator's, or the length |
| FormValidator.PasswordPattern | js/form-handler.js:5 | the password pattern matches exactly when there are at least 8 characters, all from `[A-Za-z0-9@$!%*?&]`, with a lower-case letter, an upper-case letter, a digit and one of `@$!%*?&` |
| FormValidator.ValidatePassword | js/form-handler.js:13-15 | an accepted password is at least 8 UTF-16 code units long; `PasswordPattern` gives the full rule |
| FormValidator.PasswordExampleValid | js/form-handler.js:13-15 | `validatePassword("Abcdef1!")` is true |
| FormValidator.ValidateName | js/form-handler.js:17-19 | a name is accepted exactly when trimming leaves two or more characters, or one astral character |
| FormValidator.NameLength | js/form-handler.js:17-19 | `name.trim().length >= 2` holds exactly when the name has two non-whitespace characters or one astral non-whitespace character |
| FormValidator.NameExampleValid | js/form-handler.js:17-19 | `validateName("Al")` is true |
| FormValidator.Fails | js/form-handler.js:24-40 | the name and mismatch checks fail only on a signup form |
| FormValidator.UndefinedFails | js/form-handler.js:30-35 | a missing email or password reads as `undefined`, which neither pattern accepts, so the check fails |
| FormValidator.Failing | js/form-handler.js:21-43 | the failing checks taken from the check list are no more than the checks, and each has failed |
| FormValidator.FormErrorsOutcome | js/form-handler.js:21-43 | `validateForm` throws a TypeError exactly on a signup form with no name, and otherwise returns at most four messages |
| FormValidator.FailedChecks | js/form-handler.js:24-40 | a check is in the set exactly when it fails on the form data; name and mismatch are checked only on a signup form, and a missing field reads as `undefined` |
| FormValidator.ValidateForm | js/form-handler.js:21-43 | the step-by-step `push` loop returns exactly `FormErrors`, and throws when a signup form has no name |
| FormValidator.FormErrorsStepwise | js/form-handler.js:21-43 | the result is one optional message per check, concatenated in the order name, email, password, mismatch |
| FormValidator.FormErrorsOrdered | js/form-handler.js:21-43 | the messages are those of exactly the failing checks, each check at most once, in strictly increasing check order |
| FormValidator.MessagesDistinct | js/form-handler.js:26-39 | the four messages differ pairwise, so each message identifies its check |
| FormValidator.MismatchReportedOnce | js/form-handler.js:38-40 | on signup data with a name whose password differs from its confirmation, the mismatch message appears exactly once, as the last message |
| FormValidator.FormErrorsOtherKinds | js/form-handler.js:24-40 | on any form type but `signup` the validator does not throw, never reports the name or mismatch message, and reports at most two messages |
| FormValidator.FormErrorsEmpty | js/form-handler.js:24-41 | the list is empty exactly when email and password are valid and, on signup, the name is present and valid and the password equals the confirmation |
| FormValidator.SignupExampleValid | js/form-handler.js:21-43 | a complete valid signup form gets the empty list |
| FormValidator.LoginExampleInvalid | js/form-handler.js:21-43 | a login form with a bad email and a bad password gets exactly the email message, then the password message |
| FormValidator.MetCriteria | js/form-handler.js:45-55 | the length criterion is met exactly when the password has 8 UTF-16 code units, and a class criterion exactly when the password holds a character of that class |
| FormValidator.GetPasswordStrength | js/form-handler.js:45-55 | the five `if` increments yield the number of criteria the password meets |
| FormValidator.MetCriteriaCount | js/form-handler.js:48-52 | the number of criteria met is the sum, criterion by criterion, of one for each met criterion |
| FormValidator.StrengthRange | js/form-handler.js:45-55 | the score is at most 5, and 0 for the empty password |
| FormValidator.ValidPasswordIsStrongest | js/form-handler.js:45-55 | every password `validatePassword` accepts scores 5 |
| FormValidator.StrongestNotAlwaysValid | js/form-handler.js:45-55 | the converse fails: `"Abcdef1! "` scores 5 and is rejected by the pattern |
| FormHandler.FieldKey | js/form-handler.js:68 | a derived key never holds an upper-case ASCII letter |
| FormHandler.CollectBy | js/form-handler.js:67-69 | the record never holds `__proto__` and has at most one key per input |
| FormHandler.CollectedKeys | js/form-handler.js:67-69 | the record has a key for every input's derived key other than `__proto__`, and no other key |
| FormHandler.CollectedValues | js/form-handler.js:67-69 | each key other than `__proto__` holds the value of the last input with that key |
| FormHandler.GetFormData | js/form-handler.js:63-72 | the `forEach` assignment loop builds exactly the record `CollectBy` describes |
| FormHandler.LaterInputWins | js/form-handler.js:67-69 | when two inputs share a key, the later one's value is the one kept, unless the key is `__proto__`, which is never stored |
| FormHandler.NotFound | js/form-handler.js:68 | an id that does not contain the pattern passes through `replace` unchanged |
| FormHandler.FoundAtStart | js/form-handler.js:68 | an id that starts with the pattern loses exactly that prefix |
| FormHandler.SignupStripped | js/form-handler.js:68 | a `signup…` id with no `lo` in it loses its first six characters and nothing else |
| FormHandler.EmailStripped | js/form-handler.js:68 | `loginEmail` becomes `Email` after both replacements |
| FormHandler.LoginEmailKey | js/form-handler.js:68 | `loginEmail` is stored under `email` |
| FormHandler.SignupPasswordKey | js/form-handler.js:68 | `signupPassword` is stored under `password` |
| FormHandler.ConfirmStripped | js/form-handler.js:68 | `signupConfirmPassword` becomes `ConfirmPassword` after both replacements |
| FormHandler.ConfirmKey | js/form-handler.js:68 | `signupConfirmPassword` is stored under `confirmpassword` |
| FormHandler.UpperKeyNeverCollected | js/form-handler.js:68 | no key holding an upper-case ASCII letter is ever stored |
| FormHandler.ConfirmPasswordNeverCollected | js/form-handler.js:68 | no input of any id is ever stored under `confirmPassword` |
| FormHandler.CollectedSignupAlwaysMismatches | js/form-handler.js:38 | collected data with a password, validated as signup, always fails the mismatch check, and the result throws or holds the mismatch message |
| FormHandler.MatchingSignupPasswordsMismatch | js/form-handler.js:38 | a password and a confirmation typed identically still fail the mismatch check once collected |
| FormHandler.IntendedFieldKey | js/form-handler.js:68 | the intended key never starts with an upper-case ASCII letter |
| FormHandler.IntendedConfirmKey | js/form-handler.js:38 | with the intended derivation, `signupConfirmPassword` is stored under `confirmPassword` |
| FormHandler.IntendedMismatchCheck | js/form-handler.js:38 | with the intended derivation, the mismatch check fails exactly when the typed password and confirmation differ |
| App.Lookup | js/app.js:59 | `getItem` returns a value exactly when the key is stored, and it is the stored value |
| App.Storage.constructor | js/app.js:59 | the store starts with the items earlier page loads saved |
| App.Storage.GetItem | js/app.js:59 | `getItem` returns a value exactly when the key is stored, and it is the stored value |
| App.Storage.SetItem | js/app.js:68 | `setItem` stores the value under the key and changes no other key |
| App.ThemeOrDefault | js/app.js:59 | the saved theme, or `light` by the `or` default: the saved theme when it is a non-empty string, and `light` when it is missing or empty |
| App.Toggled | js/app.js:49 | the next theme is `dark` exactly when the theme was `light`, and `light` for every other value |
| App.IconFor | js/app.js:53 | the icon is the moon exactly on the light theme and the sun on any other |
| App.ToggleTwiceRestores | js/app.js:49 | toggling twice from `light` or `dark` gives the theme back |
| App.ToggleLeavesOtherThemes | js/app.js:49 | any other saved theme toggles to `light`, then to `dark`, and never comes back |
| App.SavedThemeLoads | js/app.js:58-69 | the theme `saveTheme` stores is the theme the next `loadTheme` finds |
| App.AuthApp.constructor | js/app.js:2-11 | a new app shows the stored theme (or light) with the matching attribute and icon, and leaves the store alone |
| App.AuthApp.LoadTheme | js/app.js:58-65 | the current theme becomes the stored theme or light, and the attribute and icon follow it |
| App.AuthApp.SaveTheme | js/app.js:67-69 | the store's `theme` entry becomes the current theme and nothing else in the store changes; the page still shows the current theme |
| App.AuthApp.ToggleTheme | js/app.js:48-56 | the theme toggles, the attribute and icon follow it, the store holds the new theme, and no notification is shown |
| App.AuthApp.ShowNotification | js/app.js:202-208 | exactly one notification of that message and type is added, the type being `success` when none is given, and the theme state is untouched |
| App.SubmitNotification | js/app.js:136-148 | success gives a `success` notification and failure an `error` one, each with the login or signup text |
| App.NotificationIdentifiesOutcome | js/app.js:136-148 | the notification determines the outcome and whether the form was the login form |
| App.Form.Reset | js/app.js:142 | `form.reset()` restores the fields' default values and leaves the button alone |
| App.AuthApp.SubmitForm | js/app.js:124-154 | the button is loading and disabled when the call is awaited and neither afterwards; exactly one notification for the outcome is shown; the form is reset on success only and its values are kept on failure; the theme is untouched |
| App.AuthApp.HandleLogin | js/app.js:114-117 | submitting the login form shows one login notification, releases the button, resets the form on success only, and leaves the theme untouched |
| App.AuthApp.HandleSignup | js/app.js:119-122 | submitting the signup form shows one signup notification, releases the button, resets the form on success only, and leaves the theme untouched |

## Left out

- js/animations.js: scroll parallax, particles and observers. These are presentation, floating point and browser callbacks.
- `bindEvents`, `init`'s event wiring, `handleFormToggle`, `togglePasswordVisibility`, `createRipple`, `handleInputFocus`, `handleInputBlur`, `animateShapes`, `initAnimations` and `handleSocialAuth`. These are DOM mutations, pixel arithmetic and logging.
- `showFieldError`, `clearFieldError` and `showPasswordStrength` in js/form-handler.js. These are DOM manipulation, and the last is an empty stub.
- App.AuthApp.ShowNotification: the notification's icon class and its 4-second auto-hide timer are not modelled; only the (message, type) pair is.
- App.AuthApp.SubmitForm: `simulateAPICall`'s 2-second timer and `Math.random() > 0.2` become the `apiSucceeds` parameter. The busy state during the call is the precondition of the ghost step `AwaitApiCall`, not an interleaving. Re-entrant submissions while a call is pending are not modelled.
- App.AuthApp.LoadTheme: `localStorage.getItem` never throws here; a store the browser refuses (a SecurityError) is not modelled.
- App.AuthApp.SaveTheme: `localStorage.setItem` never throws here; a full or refused store (QuotaExceededError, SecurityError) is not modelled, so the theme is always saved.
- App.AuthApp.ToggleTheme: it inherits from `SaveTheme` a store that never fails, so the new theme is always persisted.
- `.` in the password lookaheads is modelled as "any character but a line terminator"; no general regular-expression engine is modelled.
- Js.ToLowerCase: lower-cases the ASCII letters only; Unicode case mapping of other letters is not modelled. Ids and keys here are ASCII.
- The form element's lookup of its inputs (`querySelectorAll('input')`) is replaced by the sequence of inputs in document order.

## Findings

| source | as written | input that shows it | evidently intended | confidence | as-written member | corrected member |
|---|---|---|---|---|---|---|
| js/form-handler.js:68 | the whole key is lower-cased, so `signupConfirmPassword` is stored under `confirmpassword`, while `validateForm` reads `formData.confirmPassword` (js/form-handler.js:38) | a signup form whose `signupPassword` and `signupConfirmPassword` both hold `Abcdef1!` | only the first letter is lower-cased, giving the camel-case keys `validateForm` reads (`confirmPassword`), so the check compares the two typed values | not executed; medium, because the two methods are not wired together in this repository | FormHandler.MatchingSignupPasswordsMismatch | FormHandler.IntendedMismatchCheck |
