# Portfolio page script, modelled in Dafny

This project models the behaviour of `script.js`, the script of a one-page
portfolio site. It covers the logic of the page and not its looks:

- **Contact form** (modules `Validation` and `ContactForm`). The submit
  handler trims five entries with `?.trim()`: name, email, subject, message
  and company. It checks the first four, each with no early exit, and gives
  each failing field its message through `showFieldError`. It aborts when any
  field failed. Otherwise it disables the submit button, shows a busy label
  and starts a 2000 ms timer. When the timer fires it shows a success toast,
  sets the counter to 0 and restores the button.
  - The email test is the regular expression `^[^\s@]+@[^\s@]+\.[^\s@]+$`.
  - The message box has a character counter. It colours at above 800 and above
    1000 UTF-16 code units of the *untrimmed* text.
- **JavaScript strings** (module `JsText`). `trim()` and the regular
  expression class `\s` use the same whitespace set: the ECMAScript
  WhiteSpace and LineTerminator code points. `length` counts UTF-16 code
  units.
- **Navigation** (module `Navigation`):
  - the hamburger and menu `active` classes, which are always toggled and
    cleared together;
  - the navbar's scrolled style, for `scrollY > 100`;
  - the active-link highlighting. The last section whose top minus 200 pixels
    has been scrolled past gives `current`, or `''` when there is none. The
    links whose `href` is `#${current}` are then active.
- **Typing animation** (module `Typing`). A step machine over the command
  index, the character index and the shown text, cycling through six fixed
  commands.
- **Notifier** (module `Notifications`). `showNotification` keeps at most one
  `.notification` element on the page. The success toasts of the form are a
  different element class and are not limited to one.

Timers are not clocks here. Each callback firing is one explicit method call
or one `Next` step. Values the page reads from the DOM are parameters:

- the form's entries, as a `FormData` of optional strings;
- `scrollY` and each section's `offsetTop` and `id`;
- whether an anchor's target section exists.

## Model

| member | source | states |
|---|---|---|
| JsText.TrimCharacterized | script.js:299-302 | `trim` returns the infix of the value whose outside is all whitespace and whose two ends are not whitespace; the result is empty exactly when the value is all whitespace |
| JsText.TrimOfIsUnique | script.js:299-302 | only one infix of a string meets that description, so it determines `trim` completely |
| JsText.TrimKeepsTrimmed | script.js:299-302 | a value with non-blank ends is left unchanged by `trim` |
| JsText.TrimIdempotent | script.js:299-302 | trimming twice is trimming once |
| JsText.TrimDropsTrailingBlanks | script.js:299-302 | whitespace appended to a value with non-blank ends is exactly what `trim` removes |
| JsText.Utf16Length | script.js:275 | `length` counts UTF-16 code units: between one and two per character, and one per character for text in the Basic Multilingual Plane |
| JsText.Utf16LengthAppend | script.js:275 | the `length` of a concatenation is the sum of the lengths |
| JsText.IndexOf | script.js:499 | the index of the first occurrence of a character: the character is there and nowhere before it, or the result is the length when it is absent |
| Validation.EmailPredicateMatchesPattern | script.js:323 | the string predicate used by the handler accepts exactly the strings that the regular expression `^[^\s@]+@[^\s@]+\.[^\s@]+$` matches, read as local part, `@`, host, `.`, top-level part, each non-empty and free of whitespace and `@` |
| Validation.ValidEmailMatches | script.js:323 | one direction: every accepted string splits as the pattern demands |
| Validation.PatternIsValidEmail | script.js:323 | the other direction: every split the pattern allows is accepted |
| Validation.EmailAccepted | script.js:498-501 | `a@b.co` matches the pattern |
| Validation.EmailEmptyHostRejected | script.js:498-501 | `a@.co` does not match: the host before the dot is empty |
| Validation.EmailWithSpaceRejected | script.js:498-501 | `a b@c.d` does not match: it contains whitespace |
| Validation.EmailTwoAtsRejected | script.js:498-501 | `a@b@c.d` does not match: it has a second `@` |
| Validation.NameError | script.js:314-317 | the name fails exactly when it is absent or shorter than 2 code units, and then gets the name message |
| Validation.EmailErrorMeaning | script.js:319-328 | an absent or empty email gets "Email is required" and nothing else; a present one is accepted exactly when it matches the pattern, and otherwise gets the invalid-address message |
| Validation.SubjectError | script.js:330-333 | the subject fails exactly when it is absent or shorter than 5 code units, and then gets the subject message |
| Validation.MessageErrors | script.js:335-343 | of the two independent message checks at most one fires; one fires exactly when the message is absent or its length is outside 20..1000, and it is "too short" below 20 (or when absent) and "too long" above 1000 |
| Validation.MessageLengthBounds | script.js:335-343 | the boundary lengths 20 and 1000 pass, while 19 gets the too-short message and 1001 the too-long one |
| Validation.FieldErrors | script.js:314-343 | each field receives at most one message in one submission |
| Validation.FailingMeaning | script.js:314-343 | a field is among the failing fields exactly when its checks produce a message |
| Validation.FailingEmptyIff | script.js:311-347 | the handler finds errors exactly when one of the four fields produces a message |
| Validation.AcceptedIff | script.js:311-347 | the submission goes ahead exactly when the trimmed name has at least 2 code units, the trimmed email matches the pattern, the trimmed subject has at least 5 and the trimmed message between 20 and 1000 |
| Validation.ClassifyBands | script.js:279-288 | the counter is red above 1000, yellow above 800 up to 1000, and normal up to 800 |
| Validation.ClassifyMonotone | script.js:279-288 | a longer text is never shown at a lower level than a shorter one |
| Validation.CounterDoesNotBlock | script.js:275-343 | the counter measures the untrimmed text and the check the trimmed one: a passing message followed by any whitespace still passes, though the counter shows red once the padding takes it past 1000 |
| ContactForm.AfterAllChecksAt | script.js:374-395 | after the checks, a failing field shows the single message of its check, and every other field keeps the message it had, or none |
| ContactForm.Form.constructor | script.js:293-294 | the form starts with no marks, no messages, the given button label, the button enabled, no pending timer, the counter at 0 and no toasts |
| ContactForm.Form.MessageInput | script.js:274-289 | the counter shows the untrimmed length in code units and takes the colour Classify gives; nothing else changes |
| ContactForm.Form.ShowFieldError | script.js:374-397 | the field's group is marked and its message replaced by the new one; nothing else changes |
| ContactForm.Form.CheckField | script.js:314-343 | one field's `if` blocks: the field fails exactly when FieldErrors lists a message for it, and then it is marked and shows the last such message |
| ContactForm.Form.CheckFields | script.js:306-347 | the `error` classes are cleared first and then all four fields are checked; the marked fields are exactly the failing ones, `hasErrors` says whether there is one, and the messages are those AfterAllChecksAt describes |
| ContactForm.Form.Submit | script.js:294-354 | the trimmed entries are checked; on a failure the button, the timer and the toasts are untouched; otherwise the button is disabled with the busy label and the timer holds the original label and the trimmed name |
| ContactForm.Form.Complete | script.js:357-369 | the timer adds the success toast for the captured name, sets the counter to 0 while keeping its colour, and restores the original label and the enabled button |
| ContactForm.Form.ExpireSuccessToast | script.js:452-459 | the oldest success toast leaves the page and no other state changes |
| ContactForm.SubmitAndComplete | script.js:294-369 | an accepted submission followed by its timer leaves the button as it was, the counter at 0, no field marked and one more toast addressed to the trimmed name |
| ContactForm.ShortNameBlocksSubmission | script.js:314-347 | a one-character name is marked with the name message and blocks the submission, whatever the other fields hold |
| Navigation.ActiveSectionIsLastReached | script.js:48-58 | `current` is `''` when no section is reached, and otherwise the id (possibly `null`) of the last reached section |
| Navigation.ActiveSectionInOrderedPage | script.js:48-58 | when the sections are in page order, the active section is the reached one whose successor is not yet reached |
| Navigation.ActiveSectionExample | script.js:48-58 | with sections at 0, 500 and 1200 pixels, the second is active at 700 and the third at 1000 |
| Navigation.Anchor | script.js:62 | the link target `#${current}` is `#` followed by the id, or by `null` for a section without one |
| Navigation.AtMostOneActiveLink | script.js:60-65 | when the links' `href`s are distinct, no two links are active together |
| Navigation.LinkOfActiveSection | script.js:48-65 | the active links are exactly those whose `href` is `#` plus the id of the last reached section |
| Navigation.SectionWithoutIdGivesNullAnchor | script.js:54-62 | when the last reached section has no id, the links looked for have `href` "#null" |
| Navigation.NoSectionReachedGivesBareAnchor | script.js:49-62 | above the reach of every section, the links looked for have `href` "#" |
| Navigation.NavBar.constructor | script.js:14-18 | the page starts with the menu closed, the navbar unscrolled and no link active |
| Navigation.NavBar.ToggleMenu | script.js:21-24 | the hamburger click flips the menu and the hamburger flips with it |
| Navigation.NavBar.NavLinkClicked | script.js:27-31 | a navigation-link click closes the menu |
| Navigation.NavBar.AnchorClicked | script.js:582-602 | an anchor click closes an open menu when the target section exists, and leaves the menu alone when it does not |
| Navigation.NavBar.EscapePressed | script.js:688-697 | Escape closes the menu |
| Navigation.NavBar.UpdateNavbar | script.js:35-43 | the navbar has its scrolled style exactly when `scrollY > 100` |
| Navigation.NavBar.UpdateActiveLink | script.js:47-65 | `current` is the ActiveSection of the sections at this scroll position, and each link is active exactly when its `href` is that section's anchor; the menu flags are untouched |
| Navigation.NavBar.Scroll | script.js:35-65 | a scroll event sets the navbar style and the active links, and leaves the menu flags alone |
| Typing.Next | script.js:242-263 | every callback keeps the command index in range, and after one the start timer is never pending again |
| Typing.NextKeepsInv | script.js:242-259 | every callback keeps the shown text equal to the typed prefix of the current command, with the whole command shown while the pause is pending |
| Typing.Run | script.js:242-263 | any run of callbacks keeps the command index in range |
| Typing.RunKeepsInv | script.js:242-259 | the text stays a prefix of the current command along any run |
| Typing.RunAdditive | script.js:242-263 | `m` callbacks then `n` more are the same as `m + n` callbacks |
| Typing.TypesOneCharPerTick | script.js:249-251 | `k` ticks after a command starts, its first `k` characters are shown |
| Typing.CommandRound | script.js:248-259 | a command of length `L` takes `L + 2` callbacks, after which the next command (wrapping after the last) starts from an empty text |
| Typing.RoundsFromFirst | script.js:242-259 | after the rounds of the first `j` commands, command `j` (or the first again) starts |
| Typing.FullCycle | script.js:255 | after one round of every command the animation starts the first one again |
| Typing.PageLoadTypesFirstCommand | script.js:263 | from page load, the start timer and then `k` ticks show the first `k` characters of the first command |
| Typing.SiteCycleLength | script.js:230-237 | the page's six commands make a cycle of 161 callbacks |
| Typing.TypingAnimation.constructor | script.js:239-240 | the animation starts with nothing typed and the start timer pending |
| Typing.TypingAnimation.TypeCommand | script.js:242-247 | `typeCommand` clears the text and starts the current command at its first character |
| Typing.TypingAnimation.StartTimerFired | script.js:263 | the start timer is the step Next takes, and keeps the invariant |
| Typing.TypingAnimation.Tick | script.js:248-253 | the interval tick is the step Next takes, and keeps the invariant |
| Typing.TypingAnimation.PauseFired | script.js:254-257 | the pause is the step Next takes, and keeps the invariant |
| Notifications.Icon | script.js:515 | "success" and "error" each have their own icon, and every other kind gets the information icon |
| Notifications.Without | script.js:565 | removing a notification keeps exactly the others |
| Notifications.WithoutAbsent | script.js:572 | removing a notification that is no longer on the page changes nothing |
| Notifications.Notifier.constructor | script.js:504 | the page starts with no notification |
| Notifications.Notifier.Show | script.js:504-555 | the notification present is removed and the new one appended, so exactly the new one is on the page, under a fresh id |
| Notifications.Notifier.Remove | script.js:563-574 | a delayed removal takes its own notification off the page, if it is still there |
| Notifications.Notifier.EscapeTarget | script.js:699-704 | Escape picks a notification for removal exactly when one is on the page, and it is one that is there |
| Notifications.ShowTwice | script.js:506-509 | after two notifications only the second is on the page |
| Notifications.LateRemovalKeepsSuccessor | script.js:568-574 | the expiry timer of a replaced notification does not remove its successor |

## Left out

- Styling: colours, opacity, transforms, fonts and the notification's inline CSS.
- Animations: the floating and hover effects, the IntersectionObserver fade-ins and staggered reveals, the scroll progress bar, parallax, the debounce helper, the page-load classes, the accessibility focus rings and the performance logging. None of them changes the state modelled here.
- `field.focus()` in showFieldError. Every failing field is focused in turn, so the last failing field ends up focused; this is not modelled.
- `window.scrollTo` and the 70-pixel navbar offset of the smooth scroll.
- `this.reset()`, which clears the form's inputs, and the entries the handler reads without checking (company, project type). The entries are parameters of Submit, so they have no state to reset.
- The timers are not clocks. Each callback firing is an explicit call. Interleavings are limited to what the requires clauses allow: Complete needs a pending submission, and Tick needs the typing interval to be pending.
- Fractional scroll positions and offsets: pixels are integers.
- The DOM construction of the success toast and the notification: only their sentence, kind and icon are modelled.
- ContactForm.SuccessText: the toast's paragraph is built with `innerHTML`, with the name put in unescaped. The model holds that markup string. The text the page shows differs from it when the name contains `<`, `>` or `&`, because the browser parses these as markup, and HTML parsing is not modelled. The same holds for the message of Notifications.Notifier.Show.
- ContactForm.Form.ShowFieldError: showFieldError acts only when `document.getElementById` finds the field, and throws when the field has no `.form-group` ancestor, which ends the handler. The model assumes the page's markup: all four fields exist, each inside a form group. So it always marks the field. Under that assumption, `marked == Failing(d)` in CheckFields holds, and each failing field gets its message. The missing-element and throwing paths are not modelled.
- The `.error-message` elements of a group: since showFieldError removes the existing one before it appends a new one, a group holds at most one, so the model keeps one optional text per field.
- ContactForm.Form.Submit: requires an enabled button. A disabled submit button delivers no submit event, so no submission can start while one is pending.
- ContactForm.Form.CheckFields: clearing at the start of a submission removes only the `error` classes. The `.error-message` texts of fields that now pass stay on the page, as in the source.
- ContactForm.Form.Complete: sets the counter's number to 0 but keeps its colour, as the source does.
- Navigation.NavBar.AnchorClicked: an anchor whose `href` is the bare `#` makes `querySelector` throw. That click leaves the menu as it is, which is the `targetExists == false` case.
- Navigation.AtMostOneActiveLink: at most one link is active only when the `href`s are distinct. No active link at all is possible too: the page above every section's reach, or a last reached section without an id, looks for "#" or "#null", which no navigation link has in general.
- Typing.Next: the text is modelled as characters. `charAt` and `length` count UTF-16 code units, which is the same thing for these ASCII commands.
- The Escape handler is modelled in its two parts: Navigation.NavBar.EscapePressed for the menu and Notifications.Notifier.EscapeTarget for the notification.
- showNotification is defined but not called anywhere in the script; it is modelled for its single-instance rule.
