# Multi-step form wizard, modelled in Dafny

This project models the controller of a multi-step form wizard, `assets/js/form.js`.
The form's controls are split into numbered steps and shown one step at a time.
The controller moves between steps with Previous and Next. Next is gated by
validation of the required controls of the step on show. A draft of the answers
can be saved in the browser's storage and is written back into the form when the
page starts. On the last step a review summary lists the answers. Submitting
posts the form once. On success it deletes the draft, resets the form and goes
back to the first step.

The page is abstracted into plain data:

- A control is a `Fields.Field` record: name, kind, value, checked state, the
  `required` flag, the step that holds it, and the default value and checked
  state the markup sets. The form is the sequence of its controls in document
  order.
- The browser's `FormData` is `Fields.FormEntries`: the ordered `(name, value)`
  pairs of the named controls. Checkboxes and radio buttons appear only when
  checked.
- `form.elements[k]` is `Fields.LookUp`. It yields nothing, one control, or a
  group of controls sharing the name.
- The storage slot `"wizardDraft"` is `Draft.Stored`. It holds no draft, text
  that does not parse, or a parsed map from names to a string or a list of
  strings.
- The page elements the controller drives are fields of `Controller.Wizard`:
  which step sections are hidden, the progress width, the Previous, Next and
  Submit buttons, the alert box, and the review rows.

Module layout:

- `fields.dfy`: the data model.
- `email.dfy`: the address test.
- `validation.dfy`: the first-failure scan.
- `review.dfy` (module `Summary`): the review filter.
- `draft.dfy`: saving and restoring the draft.
- `controller.dfy`: the `Wizard` class, whose methods are the handlers.

Each handler is a method over the class's state. Its `ensures` ties the new state
to the specification functions. The properties of those functions are proved as
lemmas.

In these places the code does something a reader might not expect, and the
model follows the code:

- `form.reset()` gives every control back its default checked state, and every
  control but a checkbox or radio button its default value. These are empty only
  when the markup sets no defaults. The value of a checkbox or radio button is
  its `value` attribute, which a reset leaves alone. So a value that loading
  wrote into a lone radio button survives a submit:
  `Draft.WrittenRadioValueSurvivesReset` exhibits this.
- The alternate delivery path (`USE_EMAILJS`) is an empty branch. It falls
  through to the success path and never fails.
- Validation tests only a control's `value`. A required checkbox or radio button
  that is not checked still passes. The `select-one` clause adds nothing.
- The address test applies only to required e-mail controls, and only after
  the emptiness test has passed.
- The success alert uses the warning style, because `showAlert` defaults to it.
- The saved draft keeps one value per name, the last one. Several checked
  checkboxes sharing a name do not survive a save and a load:
  `Draft.GroupedCheckboxesKeepOnlyLast` exhibits this. Loading a form's own
  draft into it changes nothing only for the forms `Draft.Restorable` describes.
- The draft is loaded only at start-up, into the page as the markup serves it
  (`Fields.Markup`). `Draft.ReloadKeepsEntries` proves that this gives back the
  saved form's entries for the forms `Draft.Reloadable` describes.
- A radio button alone under its name is saved when checked. Loading then writes
  its value and never checks it, so on a fresh page the answer is lost:
  `Draft.LoneRadioLostOnReload` exhibits this. A checkbox or radio button that
  was unchecked but is checked by default comes back checked when no control of
  its name is saved, because loading does not touch it. Under a saved name,
  loading sets the checked state of every control of the name, so the default
  does not matter: `Draft.ChangedDefaultGroupReloads` exhibits this.
- In a group of controls sharing a name, checking a radio button unchecks the
  other radio buttons of that name. When several radio buttons match the saved
  value, only the last stays checked: `Draft.RadioGroupKeepsLastMatch` exhibits
  this.
- Submit is not restricted to the last step. The handler runs whenever the form
  is submitted.
- Previous is disabled on step 1, so a click there never reaches its handler.
  `Prev` still states what the handler would do if it ran: stay on step 1 and
  hide the alert.

## Model

| member | source | states |
|---|---|---|
| `Controller.Wizard.constructor` | assets/js/form.js:190-192 | Start-up loads the draft and then shows step 1. The fields are the restored form when a draft parses and the given ones otherwise. |
| `Controller.Wizard.ShowStep` | assets/js/form.js:25-49 | Sets `current = n`. Only section `n` is visible. Progress is 100·n/N. Previous is disabled iff n = 1. Next is hidden iff n = N. Submit is hidden iff n ≠ N. The alert is hidden. The review is rebuilt iff n = N. Fields and draft are unchanged. |
| `Controller.Wizard.ValidateStep` | assets/js/form.js:65-87 | Returns true iff every required control of step n passes. The alert is hidden on success. A warning is shown for an empty control and an error for a malformed address, decided by the first failing control. |
| `Validation.CheckFindsFirstFault` | assets/js/form.js:69-84 | The scan passes iff every in-scope control passes. A failure names a control in scope that is empty, or non-empty with a bad address. Every in-scope control before it passed. |
| `Validation.CheckIgnoresLaterControls` | assets/js/form.js:69-84 | A failing verdict depends only on the controls up to the failing one. Nothing after it is examined. |
| `Email.IsEmail` | assets/js/form.js:76-78 | Accepts exactly the strings matching `^[^\s@]+@[^\s@]+\.[^\s@]+$`. Such a string has one `@`, not first. A `.` comes at least two places after it and is not last. Every other character is outside `\s` and `@`. |
| `Email.EmailFromParts` | assets/js/form.js:78 | Every string `a@b.c` passes when `a`, `b` and `c` are non-empty runs of `[^\s@]`. |
| `Email.RejectsNonAddress` | assets/js/form.js:78 | `not-an-email` fails. |
| `Controller.Wizard.BuildReview` | assets/js/form.js:89-101 | The review rows are the summary of the form's current entries. |
| `Summary.ReviewConcat` | assets/js/form.js:94-99 | The summary of a concatenation is the concatenation of the summaries. The summary is therefore an order-preserving filter. |
| `Summary.ReviewMembers` | assets/js/form.js:92-99 | An entry is a row iff it is an entry of the form, its name is not `_gotcha` or `_subject`, and its value is not empty. |
| `Summary.ReviewKeepsAllShown` | assets/js/form.js:92-99 | There are never more rows than entries. The rows are all the entries iff every entry is shown. |
| `Controller.Wizard.SaveDraft` | assets/js/form.js:103-108 | The slot holds the object built from the form's entries. The saved-draft alert is shown. |
| `Draft.LastSubmitter` | assets/js/form.js:104 | Finds the last control of a name that contributes an entry, or reports that there is none. |
| `Draft.SavedDraftAppend` | assets/js/form.js:104 | One more control at the end of the form overwrites, when it contributes an entry, the saved value under its name. Otherwise the saved object is the same. |
| `Draft.SavedLastWins` | assets/js/form.js:104 | A name is saved iff some control of that name contributes an entry. Its value is that of the last such control. |
| `Controller.Wizard.LoadDraft` | assets/js/form.js:110-135 | With a parsed draft, the fields become the restored form. With no draft or an unreadable one, the fields are unchanged. |
| `Controller.Wizard.SetChecked` | assets/js/form.js:122-124 | The `checked` setter: the control takes the new state, and checking a named radio button unchecks every other radio button of its name. Nothing else changes. |
| `Controller.Wizard.CheckGroup` | assets/js/form.js:118-125 | A checkbox or other control with the key's name is checked iff its value matches the saved value. A radio button of the name is checked iff it matches and no later radio button of the name matches. Controls under other names are unchanged. |
| `Draft.GroupStagesStep` | assets/js/form.js:121-125 | Setting one control of the group, through the `checked` setter, moves the form from one stage of the loop to the next. |
| `Fields.LookUp` | assets/js/form.js:116-118 | `form.elements[k]` yields nothing iff k is empty or names no control. A lone control is the only one of its name. A group means at least two controls share the name. |
| `Draft.Restore` | assets/js/form.js:115-131 | Only `value` and `checked` change. Names and positions stay. A control whose name is not saved is untouched, so keys naming no control change nothing. |
| `Draft.RestoreNothing` | assets/js/form.js:113-115 | A draft without keys leaves every control as it was. |
| `Draft.RestoreAddKey` | assets/js/form.js:115-131 | The loop may apply the saved keys in any order. Adding one key to a draft changes the restored form exactly as applying that key does. |
| `Draft.RestoreAddKeyAt` | assets/js/form.js:115-131 | The same holds one control at a time. |
| `Draft.AddedKeyAtOwnControl` | assets/js/form.js:115-131 | A control named by the added key was untouched before and takes exactly that key's effect. |
| `Draft.AddedKeyAtOtherControl` | assets/js/form.js:115-131 | A control under another name keeps what the rest of the draft gave it. |
| `Draft.SavedKeysResolveByName` | assets/js/form.js:104-120 | In a restorable form, every saved key is one that `form.elements[k]` and the group selector find by name. |
| `Draft.RoundTrip` | assets/js/form.js:103-135 | For a restorable form, loading the form's own draft into it changes nothing. |
| `Draft.RoundTripAt` | assets/js/form.js:115-131 | The same holds control by control. |
| `Draft.RoundTripGroupAt` | assets/js/form.js:118-125 | In a saved group of a restorable form, the group rule gives each control back the checked state it was saved with. |
| `Fields.SameEntries` | assets/js/form.js:104 | Two forms that agree on which controls contribute an entry, and on those controls' names and values, have the same entries. |
| `Fields.ResetIsMarkup` | assets/js/form.js:166 | A reset gives back the page as served iff every checkbox and radio button still has the value the markup gave it. |
| `Draft.ReloadKeepsEntries` | assets/js/form.js:103-135 | For a reloadable form, saving and then loading into the page as served gives back the form's entries. Saving again stores the same draft. |
| `Draft.ReloadAt` | assets/js/form.js:115-131 | On reload, each control contributes an entry iff it did before, with the same name and value. |
| `Draft.ReloadUnsavedAt` | assets/js/form.js:115-117 | A control whose name was not saved contributed no entry, and as served it contributes none. |
| `Draft.ReloadLoneAt` | assets/js/form.js:126-130 | A control alone under a saved name gets its entry back. |
| `Draft.ReloadGroupAt` | assets/js/form.js:118-125 | A control of a saved group, as served, is restored to exactly its saved state, whatever its default checked state. |
| `Draft.LoneRadioLostOnReload` | assets/js/form.js:126-130 | A checked radio button alone under its name is saved, but loading it into a fresh page leaves it unchecked. |
| `Draft.ChangedDefaultGroupReloads` | assets/js/form.js:118-125 | A radio group whose pre-checked button the user changed comes back exactly as saved. |
| `Draft.WrittenRadioValueSurvivesReset` | assets/js/form.js:129 | A saved value written into a lone radio button stays its value after a reset. |
| `Draft.RadioGroupKeepsLastMatch` | assets/js/form.js:118-125 | Two radio buttons of one name both match a saved list. Only the second stays checked. |
| `Draft.GroupedCheckboxesKeepOnlyLast` | assets/js/form.js:104-125 | Take two checked checkboxes of one name. After saving and loading, only the second is still checked. |
| `Fields.ValueNamed` | assets/js/form.js:147 | Gives the value of the first control with the name, or nothing when no control has it. |
| `Controller.Wizard.Prev` | assets/js/form.js:137 | `current` becomes max(1, current − 1). Step 1 stays at 1. The page invariant holds and the alert is hidden. The review is rebuilt iff the new step is N. Fields and draft are unchanged. |
| `Controller.Wizard.Next` | assets/js/form.js:138-141 | A step that passes validation moves to min(N, current + 1), hides the alert, and rebuilds the review iff the new step is N. A failing step changes only the alert. |
| `Controller.Wizard.KeyDown` | assets/js/form.js:180-188 | Enter outside a text area is prevented, and nothing else is. It acts as Next only when current < N: a passing step moves on and rebuilds the review on reaching N, a failing one changes only the alert. Otherwise nothing changes. |
| `Controller.Wizard.Submit` | assets/js/form.js:144-177 | A filled-in or missing honeypot drops the submit with no post and no change. A post is made iff the submit is not dropped and the endpoint path is configured. On success the draft is deleted, the form is reset, `current` is 1 and the success alert shows. On failure only the error alert changes. |

## Left out

- Focus, `scrollIntoView`, CSS class strings and the HTML markup of the review rows are presentation. Review rows are `(name, value)` pairs.
- The progress width is stated as the exact rational 100·n/N. The floating-point rounding of the browser is not modelled.
- The network call is left out. Its result is a parameter of `Submit`: an answer with or without a success status, or a thrown error.
- The `await` in the submit handler is not modelled. `Submit` runs as one step, so user events during the suspension are not interleaved with it.
- `console` logging and the 2-second timer that hides the saved-draft alert are left out.
- JSON is not modelled. The draft is stored already parsed. Text that is empty, does not parse, or parses to `null`, a number or a boolean is the `Unreadable` state, and loading it changes nothing. A JSON array or string parses to a map from the positions "0", "1", … to its items, which is a `Draft` with those keys. Saved values other than strings and lists of strings are not represented.
- `Draft.Restore`: looks every key up by name only. `form.elements[k]` reads a key made of digits, such as the position keys of a saved array or string, as a position in the form when it is an array index. Under a member name of the collection (`length`, `item`, `namedItem`, `toString`, …) it yields that member, never a control. For such keys the model does not describe what the browser does. `Draft.Restorable` rules these names out, so the round trip does not depend on them.
- `Controller.Wizard.LoadDraft`: does not model the abort of the restore loop. A name shared by several controls that holds `"` or a line break makes the selector at form.js:120 malformed. The browser then throws, the catch ends the loop, and the keys already applied stay applied. A `\` in such a name starts an escape, so the selector matches a different name. The model applies every key and matches a group by exact name. `Draft.Restorable` rules these names out too.
- `form.elements[k]` also finds controls by `id`. The model looks them up by name only.
- Assigning a value to a select that has no such option clears it in a browser. The model stores the text as given.
- `Draft.Restore` and `Controller.Wizard.LoadDraft`: assigning `value` to a text or e-mail input removes line breaks, and an e-mail input also trims surrounding white space. The model stores the saved text as given.
- File entries, multiple selects and disabled controls are not part of the modelled `FormData`.
- The `data` object built at line 150 is never used, so it is not modelled.
- `showStep` crashes when no section carries the step number. `ShowStep` and `ValidateStep` therefore require 1 ≤ n ≤ N.
- Controls are values in a sequence, not shared objects. Element identity and aliasing are not modelled.
- Edits the user types between events are not operations of the model. `Valid` places no constraint on the fields, so every handler contract covers any edited form.
