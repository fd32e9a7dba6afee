# A verified model of the NGO website's behaviour script

`script.js` is the browser script of a static NGO website. It wires up the
navigation bar, the contact and newsletter forms, the entrance animations, image
lazy-loading and a few accessibility aids. This project models the parts of it
that make decisions or keep state, and proves what they guarantee:

- **Form validation** (`FormValidation`, validation.dfy). `validateEmail` is the regular
  expression `/^[^\s@]+@[^\s@]+\.[^\s@]+$/`. Its language is written out as a split of the
  string around an "@" and a ".", and it is proved equal, in both directions, to a plain
  description: no whitespace, exactly one "@", something before it, and a "." strictly
  inside the part after it. `validateContactForm` checks name, email, subject and message
  in that order and reports only the first failure. The `trim()` it uses is modelled and
  proved to give the empty string exactly when the field has no non-whitespace character.
  Whitespace is JavaScript's `\s` set, which `trim()` also uses.
- **Transient message** (`Forms`, forms.dfy). `showMessage` removes the first attached
  `.form-message` and appends a fresh one. Each delayed removal is an explicit event,
  `Expire(id)`, which removes only its own element and only while that element is still
  attached. The class invariant keeps at most one message attached, and the two submit
  handlers report through `showMessage`.
- **Navigation** (`Navigation`, navigation.dfy). The header style is a threshold on the
  scroll offset. `setActiveLink` runs over an array of per-link `active-link` flags: the
  last section in band wins, and if no section is in band the flags stay as they were.
  `showMenu` and `hideMenu` set the menu's visibility and the body's overflow style, and
  leave focus as it was.
- **Escape key** (`Accessibility`, accessibility.dfy). On an open menu, Escape closes it the
  way `hideMenu` does and moves focus to the toggle.
- **Observers** (`Observers`, `ScrollAnimations`, `LazyImages`). The reveal callback only adds
  `animate-in`, so revealing is one-way, repeatable and order-independent. The lazy-image
  callback loads `data-src` when it is non-empty, removes `lazy` and stops observing the
  image.

Behaviours of the code worth stating plainly:

- Active section: the band is `(top-100, top-100+height]`, and because every match clears
  all links, the last match wins (`LastMatchWins` shows two overlapping bands).
- At most one link is active after a scroll only when some section matched or at most one
  was active before: when no section is in band, the flags are left untouched
  (`ActiveAfterAtMostOne`, `NoMatchUnchanged`).
- Closing the menu always writes `'auto'`, whatever the overflow was before
  (`ShowThenHide`); it does not restore an unset overflow.
- A superseded message's removal timer is not cancelled: it still fires, finds its element
  detached, and does nothing (`RapidNotifications`).
- Revealed elements are never unobserved: the callback only adds `animate-in`, which a
  repeated intersection leaves unchanged (`RevealedIdempotent`).

## Model

| member | source | states |
|---|---|---|
| FormValidation.TrimStart | script.js:155 | the result is the suffix of the field left after its leading whitespace, and it starts with a non-space |
| FormValidation.TrimEnd | script.js:155 | the result is the prefix left after the trailing whitespace, and it ends with a non-space |
| FormValidation.Trim | script.js:155 | `trim()` gives a contiguous slice with only whitespace outside it, and it neither starts nor ends with whitespace |
| FormValidation.TrimEmptyIffNoText | script.js:155-173 | `!field.trim()` holds exactly when the field has no non-whitespace character |
| FormValidation.IndexOf | script.js:179 | the position of the first occurrence, with no occurrence before it, or the length when there is none |
| FormValidation.SingleAt | script.js:179 | when every other character is in `[^\s@]`, the given "@" is the only one and the first one |
| FormValidation.MatchInPlainTerms | script.js:178-181 | a match of the pattern has no whitespace, exactly one "@" at the split point, and an inner "." after it |
| FormValidation.PlainTermsMatch | script.js:178-181 | a string with no whitespace, one "@" not at the start, and an inner "." after it matches the pattern |
| FormValidation.EmailInPlainTerms | script.js:178-181 | `validateEmail(s)` holds exactly when s has no whitespace, exactly one "@", a non-empty part before it and a "." strictly inside the part after it |
| FormValidation.EmailAccepted | script.js:178-181 | "x@y.com" and "a@b.co" are accepted |
| FormValidation.EmailRejected | script.js:178-181 | "x@y" and "not-an-email" are rejected |
| FormValidation.ValidateContactForm | script.js:154-176 | passes exactly when all four fields pass; reports the name, email, subject or message failure exactly when that check is the first to fail |
| FormValidation.ContactFormNameMissing | script.js:155-158 | an empty name is reported as the missing name, before the email is looked at |
| FormValidation.ContactFormEmailInvalid | script.js:160-163 | a filled name with "not-an-email" is reported as the invalid address |
| FormValidation.ContactFormPassed | script.js:154-176 | a filled name, "a@b.co", a subject and a message pass |
| Forms.Expired | script.js:237-240 | after an expiry the attached messages are exactly those that were attached and are not the expiring element |
| Forms.ExpiredIncreasing | script.js:237-240 | an expiry keeps the attached elements in creation order |
| Forms.ExpiredDetached | script.js:238 | the removal timer of an element that is no longer attached changes nothing |
| Forms.ExpiredOwnOnly | script.js:237-240 | an expiry removes exactly one element, its own, and every other attached element stays |
| Forms.ShownSingle | script.js:185-232 | with at most one message attached before, exactly the new message is attached after `showMessage` |
| Forms.RapidNotifications | script.js:183-243 | after two calls in quick succession only the second message is shown; the first one's timer leaves it in place, and its own timer removes it |
| Forms.FormHandler.constructor | script.js:90-95 | no message is attached at the start, and the invariant holds |
| Forms.FormHandler.ShowMessage | script.js:183-243 | removes the first attached message, appends a fresh element with the given text and kind, and keeps the single-message invariant |
| Forms.FormHandler.Expire | script.js:235-242 | removes its own element if still attached and keeps every other element |
| Forms.FormHandler.HandleContactForm | script.js:111-133 | reports the first validation failure as an error, or shows the thank-you message and counts as submitted exactly when validation passes; the message gets the next fresh identity |
| Forms.FormHandler.HandleNewsletterForm | script.js:135-152 | reports an invalid address as an error, or acknowledges the subscription exactly when the address matches the pattern; the message gets the next fresh identity |
| Navigation.HeaderThreshold | script.js:56-66 | the header is elevated exactly when scrollY >= 50, and flat otherwise |
| Navigation.HeaderMonotone | script.js:59 | scrolling further down never flattens an elevated header |
| Navigation.HeaderExamples | script.js:59 | offset 40 is flat; 50 (the boundary) and 60 are elevated |
| Navigation.LastMatch | script.js:72-78 | returns the last section whose band `(top-100, top-100+height]` holds scrollY, or none when no band holds it |
| Navigation.FirstLink | script.js:76 | returns the first link, in document order, whose href is the target, or none when no link has it |
| Navigation.ActiveIsLastMatch | script.js:72-84 | when some section is in band, the only active link afterwards is the first one whose href is "#" plus the last matching section's id; if there is no such link, none is active |
| Navigation.NoMatchUnchanged | script.js:78-83 | when no section is in band, the link flags stay as they were |
| Navigation.ActiveAfterAtMostOne | script.js:78-83 | afterwards at most one link is active, provided some section matched or at most one was active before |
| Navigation.ActiveAfterIdempotent | script.js:68-85 | evaluating twice at the same offset gives the same flags as evaluating once |
| Navigation.LastMatchWins | script.js:78-82 | when two bands overlap, the later section's link ends up active |
| Navigation.ShowMenuLocks | script.js:46-49 | `showMenu` shows the menu and locks background scrolling, and focus does not move |
| Navigation.HideMenuReleases | script.js:51-54 | `hideMenu` hides the menu and unlocks scrolling, and doing it twice is the same as once |
| Navigation.ShowThenHide | script.js:46-54 | after opening and closing, overflow is 'auto', whatever it was before |
| Navigation.MenuTransitionsKeepLock | script.js:46-54 | the menu is shown exactly while scrolling is locked, at the start and after each transition |
| Navigation.Menu.constructor | script.js:9-11 | the menu starts hidden, with overflow unset and focus elsewhere |
| Navigation.Navigation.constructor | script.js:8-22 | holds the links' hrefs, and its `init()` leaves the `active-link` flags as setActiveLink at the current offset makes them from the page's initial flags |
| Navigation.Navigation.ShowMenu | script.js:46-49 | the toggle click leaves the menu in the `showMenu` state |
| Navigation.Navigation.HideMenu | script.js:51-54 | a click on the close control or on a link leaves the menu in the `hideMenu` state |
| Navigation.Navigation.SetActiveLink | script.js:68-85 | the loop over sections leaves the link flags as the last section in band determines, and unchanged when no section is in band |
| Accessibility.EscapeClosesOpenMenu | script.js:385-393 | Escape on an open menu leaves the `hideMenu` state with focus on the toggle |
| Accessibility.KeydownWithoutEffect | script.js:386-388 | Escape on a closed menu, and any other key, change nothing |
| Accessibility.EveryCloseReleasesLock | script.js:385-393 | after opening the menu, closing it either way unlocks scrolling, and Escape keeps shown and locked in step |
| Accessibility.HandleKeydown | script.js:383-395 | the keydown listener leaves the menu in the state the Escape rule gives |
| Observers.IntersectingTargets | script.js:287-288 | returns exactly the targets of the entries that report an intersection |
| Observers.IntersectingTargetsAppend | script.js:287-288 | two batches report the intersecting targets of either batch |
| ScrollAnimations.RevealedMonotone | script.js:286-292 | a callback never takes `animate-in` away |
| ScrollAnimations.LeavingKeepsRevealed | script.js:288-290 | entries that do not intersect change nothing |
| ScrollAnimations.RevealedIdempotent | script.js:286-292 | a repeated intersection changes nothing |
| ScrollAnimations.RevealedInTurn | script.js:286-292 | two callbacks in turn reveal the same elements as one callback with both batches |
| ScrollAnimations.ScrollAnimations.constructor | script.js:275-297 | every element to animate is observed, and none is revealed yet |
| ScrollAnimations.ScrollAnimations.ObserveElements | script.js:299-313 | each given element is added to the observed elements |
| ScrollAnimations.ScrollAnimations.OnIntersection | script.js:286-292 | adds `animate-in` to exactly the intersecting entries' targets, and they stay within the observed elements |
| LazyImages.LoadSource | script.js:468-471 | a loaded image's src is its data-src when that is non-empty, and its old src otherwise; `lazy` is gone and the image is unobserved |
| LazyImages.LoadIdempotent | script.js:468-471 | loading an image twice is the same as loading it once |
| LazyImages.LazyImages.constructor | script.js:477-479 | every image is observed |
| LazyImages.LazyImages.OnIntersection | script.js:465-474 | exactly the intersecting images are loaded; all others stay as they were |

## Left out

- Event wiring, `DOMContentLoaded` initialisation and the module export. They only connect
  handlers to events (script.js:24-44, 101-109, 444-460, 519-521).
- Inline styles, injected CSS, keyframes, the skip link and the focus outlines. They are
  presentation only. This includes the exact header colours, message colours and the
  `<style>` element each `showMessage` adds to the head.
- The 300 ms exit animation before a message is removed. The two nested timers are one
  `Expire` event, and timer durations are not modelled.
- `SmoothScroll`. It calls `window.scrollTo`, which is a browser call.
- `DonationHandler`. It only calls `alert` and `console.log`.
- `utils.debounce`, `utils.throttle`, the global error handler and the `console` logging.
  Their behaviour is timing and logging.
- IntersectionObserver geometry (threshold, root margin) and the support check for it.
  `isIntersecting` is an input. Callbacks receive entries for observed elements only.
- `FormData.get` returning null, and the newsletter form's fallback lookup. Form fields are
  plain strings.
- `form.reset()` after a successful submission. The form's fields are inputs here, not
  state.
- Missing DOM elements. `header`, `nav-menu` and `nav-toggle` are assumed present. A missing
  `nav-menu` makes `showMenu`, `hideMenu` (script.js:47, 52) and the Escape handler
  (script.js:388) throw. A missing `nav-toggle` leaves the click listener unbound
  (script.js:26-28), so the menu cannot be opened; an Escape on an open menu would throw at
  script.js:391 after closing it. A missing `header` makes `new Navigation()` itself throw
  (its `init()` runs `handleScroll`, script.js:15, 20, 60, 63) inside the `DOMContentLoaded`
  listener. That aborts
  the listener, so FormHandler, SmoothScroll, ScrollAnimations, DonationHandler and
  AccessibilityEnhancements are never constructed (script.js:447-451).
- Fractional scroll offsets. Scroll offsets and section geometry are integers.
- Section ids that are not plain CSS string content (script.js:76). The model takes a
  section's link to be the first link whose href is "#" followed by the id, compared as
  plain strings. An id containing `"` makes the selector invalid, so `querySelector` throws
  and the `forEach` stops at that section, before its band test, on every scroll. An id
  containing `\` is read as a CSS escape, so the selector can match a different href.
