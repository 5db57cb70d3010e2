# EditableTextField, modelled in Dafny

This project models the state machine of the `EditableTextField` React
component of the MoneyBudget front end. The component shows a labelled value
that switches between a read-only view and an inline editor. It keeps its text
in the browser's `localStorage` under a per-field `storageKey`, and it can hand
a committed value to an optional `onChange` callback.

The model has four modules.

- `Wrappers` (`wrappers.dfy`) defines `Option`, which stands for JavaScript's
  `null`/`undefined` versus a present value.
- `JsString` (`js_string.dfy`) models `String.prototype.trim` over
  ECMAScript's whitespace and line-terminator characters, with the reference
  predicate `Blank` and the lemma that `trim()` is empty exactly for blank
  strings. It also models `replace(/\n$/, "")`.
- `Storage` (`local_storage.dfy`) holds `LocalStorage`, a class over a
  `map<string, string>`. An absent key is what `getItem` reports as `null`.
  Every component instance shares the store by reference, and the store
  outlives the component.
- `EditableField` (`editable_text_field.dfy`) holds the derived render
  outputs as functions: the initial value, the reload value, the empty-field
  warning, the view-mode text and the Save button's enabled state. It also
  holds the class `EditableTextField`. Its fields are `editing`, `inputValue`,
  `submitting` and `props`, plus a reference to the store. Each event handler
  is a method with a `modifies` frame that names exactly the fields and store
  it may change.

Three client methods, `EnterAmountScenario`, `CancelRevertsScenario` and
`RemountScenario`, are verified against the method contracts alone. They cover
these walk-throughs:

- The fallback is shown, then "50" is typed and committed.
- A typed value is reverted by Cancel.
- A committed value is read back by a second instance mounted on the same store.

`isRequired` does not make a blank value committable. `handleSubmit`
(EditableTextField.tsx:50) tests `inputValue?.trim()` whatever `isRequired`
says, so `isRequired` only decides whether the warning is shown
(`SaveAndWarningAgreeWithSubmit`).

## Model

| member | source | states |
|---|---|---|
| `JsString.ContentStart` | src/Components/EditableTextField/EditableTextField.tsx:50 | the forward scan of `trim` stops at the first non-whitespace character at or after its start, or at the end; everything it skipped is whitespace |
| `JsString.ContentEnd` | src/Components/EditableTextField/EditableTextField.tsx:50 | the backward scan of `trim` stops just after the last non-whitespace character above its lower bound, or at that bound; everything it skipped is whitespace |
| `JsString.Trim` | src/Components/EditableTextField/EditableTextField.tsx:50 | `trim()` returns a string no longer than its input, with no whitespace at either end |
| `JsString.TrimIsInfix` | src/Components/EditableTextField/EditableTextField.tsx:50 | `s.trim()` is a slice `s[i..j]` where everything before `i` and everything after `j` is whitespace; with `Trim`'s own contract, it is the piece of `s` between its leading and its trailing whitespace |
| `JsString.TrimEmptyIffBlank` | src/Components/EditableTextField/EditableTextField.tsx:50 | `s.trim()` is "" if and only if every character of `s` is whitespace |
| `JsString.StripTrailingNewline` | src/Components/EditableTextField/EditableTextField.tsx:75 | when the text ends in a line feed, the result plus that line feed is the text; otherwise the text is unchanged |
| `JsString.StripUndoesOneNewline` | src/Components/EditableTextField/EditableTextField.tsx:75 | appending one line feed and stripping gives back the original; with two line feeds, exactly one is removed |
| `Storage.LocalStorage.GetItem` | src/Components/EditableTextField/EditableTextField.tsx:37 | `getItem` reports `null` exactly for absent keys and otherwise returns the stored item |
| `Storage.LocalStorage.SetItem` | src/Components/EditableTextField/EditableTextField.tsx:52 | `setItem` binds the key to the value, and every other key keeps its item |
| `EditableField.Required` | src/Components/EditableTextField/EditableTextField.tsx:27 | an omitted `isRequired` prop means true; a supplied one is taken as given |
| `EditableField.HasContent` | src/Components/EditableTextField/EditableTextField.tsx:50 | `inputValue?.trim()` is truthy if and only if the value is non-null and not whitespace-only |
| `EditableField.InitialValue` | src/Components/EditableTextField/EditableTextField.tsx:29-31 | the initial value is "" if and only if neither the stored item nor `value` is a non-empty string. A non-empty stored item wins. Any non-empty result is the stored item or `value` |
| `EditableField.ReloadValue` | src/Components/EditableTextField/EditableTextField.tsx:36-39 | any stored item wins, including ""; with nothing stored the result is `value` when that is non-empty, else "" |
| `EditableField.InitialDiffersFromReload` | src/Components/EditableTextField/EditableTextField.tsx:29-39 | the initialiser's chain of logical ors and the reload's `!== null` test give different values exactly when the store holds "" and `value` is non-empty |
| `EditableField.ShowEmptyFieldWarning` | src/Components/EditableTextField/EditableTextField.tsx:83 | the warning (rendered under the same condition at line 171) is shown if and only if the field is required, in edit mode, and its value is null or whitespace-only; it is never shown in view mode |
| `EditableField.DisplayText` | src/Components/EditableTextField/EditableTextField.tsx:121 | view mode shows the working value when it is a non-empty string, otherwise the fallback; whatever differs from the fallback is a non-empty string |
| `EditableField.SaveEnabled` | src/Components/EditableTextField/EditableTextField.tsx:155 | Save is enabled if and only if no commit is in flight and the value is non-null with a non-whitespace character |
| `EditableField.SaveAndWarningAgreeWithSubmit` | src/Components/EditableTextField/EditableTextField.tsx:155 | Save is enabled exactly when Submit would commit and `submitting` is false. While the warning is up, Save is disabled and Submit is a no-op. With `isRequired` false, a blank value shows no warning and still cannot be committed |
| `EditableField.CommittedValueReadBack` | src/Components/EditableTextField/EditableTextField.tsx:50-52 | a value that passes Submit's test is read back unchanged by both the initialiser and the reload, and view mode displays it |
| `EditableField.EditableTextField.EmptyFieldWarning` | src/Components/EditableTextField/EditableTextField.tsx:83 | the instance shows the warning if and only if its `isRequired` prop (true when omitted) holds, it is in edit mode, and its value is null or whitespace-only |
| `EditableField.EditableTextField.SaveButtonEnabled` | src/Components/EditableTextField/EditableTextField.tsx:155 | the instance's Save button is enabled if and only if it is not submitting and its value has content; an enabled button never coincides with the warning |
| `EditableField.EditableTextField.constructor` | src/Components/EditableTextField/EditableTextField.tsx:27-33 | the first render starts in view mode, with nothing submitting and the working value taken from `InitialValue` of the stored item and `value`; mounting is this followed by `SyncFromStorage` |
| `EditableField.EditableTextField.SyncFromStorage` | src/Components/EditableTextField/EditableTextField.tsx:36-39 | the effect sets the working value to `ReloadValue` of the current stored item and leaves the store unchanged |
| `EditableField.EditableTextField.Rerender` | src/Components/EditableTextField/EditableTextField.tsx:36-39 | new props are adopted. The working value is reloaded if and only if `value` or `storageKey` changed, and is kept otherwise. The store is unchanged |
| `EditableField.EditableTextField.StartEditing` | src/Components/EditableTextField/EditableTextField.tsx:126 | the edit button enters edit mode and changes nothing else; the warning then shows exactly when the field is required and its value has no content |
| `EditableField.EditableTextField.Submit` | src/Components/EditableTextField/EditableTextField.tsx:49-59 | If the value has content: the store becomes the old store with the untrimmed value under `storageKey`, edit mode ends, `submitting` is false, and `onChange` gets the value when supplied. This holds whatever `submitting` was before. Otherwise the store, `editing` and `submitting` are unchanged and `onChange` is not called, whatever `isRequired` is |
| `EditableField.EditableTextField.Cancel` | src/Components/EditableTextField/EditableTextField.tsx:61-65 | the working value becomes `ReloadValue` of the stored item (even "") or else `value` when non-empty, else "", edit mode ends (so the warning is gone), and the store is unchanged |
| `EditableField.EditableTextField.KeyDown` | src/Components/EditableTextField/EditableTextField.tsx:68-72 | Enter has exactly Submit's effect, so with content it writes the store even when `submitting` is already true; any other key changes nothing |
| `EditableField.EditableTextField.Change` | src/Components/EditableTextField/EditableTextField.tsx:74-77 | a keystroke sets the working value to the new text less exactly one trailing line feed; `editing` and the store are unchanged |

## Left out

- `EditableField.EditableTextField.Submit`: `onChange` is awaited inside the source's handler. The model treats the whole handler as one atomic step. The callback is a step that returns and leaves the store alone. Three cases are not modelled: the callback rejecting (the source would leave `submitting` stuck at true), a second Submit or Enter arriving while the callback is pending, and re-render timing. As a result `submitting` is false between steps (`Valid`). The contracts of `Submit` and `KeyDown` admit a state with `submitting` true and show the store written from it, and `SaveAndWarningAgreeWithSubmit` contrasts the two tests. No step of the model reaches such a state, though.
- `EditableField.EditableTextField.Rerender`: the source's `value` prop distinguishes `undefined` from `null`, and switching between them re-runs the effect. The model folds both into `None`, so it does not model that reload.
- The hover flag and `handleHover` (EditableTextField.tsx:33, 79-81) affect only presentation, namely the background colour and whether the edit button is rendered. `StartEditing` can therefore be called in any state.
- Focusing the input and placing the caret (EditableTextField.tsx:42-47) are DOM side effects.
- Rendering is not modelled: styling, MUI components, `Fade`, `CircularProgress` and the typography `variant`. The handlers Submit, Cancel, KeyDown and Change are wired only in edit mode, but their contracts do not require it, because they behave the same in either mode.
- `JsString.IsWhitespace`: JavaScript strings are UTF-16 code units, while Dafny's `char` is a Unicode scalar value. The whitespace set is the fixed ECMAScript WhiteSpace (with the Zs category written out) plus LineTerminator list. It does not follow later Unicode versions.
- Failures of `localStorage` (disabled or full) are not handled by the source and are not modelled.
- `src/Components/Header/AppHeader.tsx` is presentational. Its only state is a menu anchor, and its menu items are inert. `src/App.tsx` is JSX composition. Neither is part of this model.
