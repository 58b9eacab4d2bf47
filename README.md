# Verification questionnaire: gating state machine

This project models the logic of a browser verification questionnaire. The form loads a list of check items and orders them by priority. It shows them as a series of yes/no radio-button groups and gates which items can be answered. It then submits the answered items.

Three parts of the application are modelled:

- **The item load** (`CheckFormService`, `CheckItemModel`). Fetched items are stably sorted by ascending `priority`. Each item then gets its initial state: item 0 enabled, every other item disabled, every answer unset. A rejected fetch is passed on unchanged. The sort is written as an insertion sort. `StableSortIsUnique` proves that any sorted list that keeps each priority's items in fetch order is equal to it, so the model gives exactly what the built-in stable array sort gives. The service exports the loader as `getCheckFormItems`, while the form and the tests import `getCheckFormItemsByPriority`. Both names denote one function, modelled as `GetCheckFormItems`.
- **The form** (`VerificationForm`). The pure list transforms are modelled as functions:
  - the selection transition `SelectItem`;
  - the reset `Initialized`, also used by the load;
  - the submit-readiness predicate `IsSubmitEnabled`;
  - the submitted-results filter `SubmittedResults`;
  - the arrow-key focus move `FocusAfterKey`.

  The component state (`items`, `focusedItemIndex`, `isSubmitted`) is the class `Form`. Its methods are the handlers. Each method keeps the invariant `GateSound` and states its new state in terms of those functions.
- **The radio-button group** (`RadioButtonGroup`). The decimal `Number.parseInt` of a key is `ParseInt`, and the lookup of the k-th child is `Find`. Rendering keeps only the RadioButton children (`RenderOptions`), and `ClassNames` gives the group's class flags. The `selectedValue`/`focused` state and its handlers are the class `Group`.

JavaScript's "" answer is `Unset`, and a truthy `result` is `Yes` or `No`. Priorities are unbounded integers.

**Predecessor-only gate.** One might expect a "yes" to re-enable later items only along an unbroken chain of "yes" answers. The code checks only each item's immediate predecessor (`VerificationForm.tsx:63-66`), and the model follows the code. What the code does guarantee is `GateSound`: the first item is always enabled, and an enabled item has a predecessor answered "yes". `PredecessorOnlyGate` proves that the chain property fails on a short sequence of answers. On four items, answer "yes" on items 0, 1 and 2, then "no" on item 1, then "no" and then "yes" on item 0. Each step changes the answer of an enabled item, so a user can make it through the radio buttons. Item 2 is now disabled and item 3 enabled. Answering item 3 and submitting then sends a "yes" after a "no".

**Submitting** is split at the `await`. `Form.OnFormSubmit` marks the submission in flight and returns the results to send. `Form.OnSubmitSettled` takes the call's outcome as a parameter. It produces the alert text and then resets the form whatever the outcome. The source resets from the `items` captured when the handler started. `ResetIgnoresSelection` shows that a reset depends only on ids, priorities and descriptions, so answers given during the call make no difference.

## Model

| member | source | states |
|---|---|---|
| `CheckItemModel.Initialized` | src/containers/VerificationForm/VerificationForm.tsx:82-91 | Keeps the length and every id, priority and description; every answer is unset; an item is disabled iff its index is not 0 (the same map as check-form.service.ts:11) |
| `CheckFormService.Insert` | src/services/check-form.service.ts:9 | Inserting an item yields a list one longer holding exactly the old items plus the new one (same multiset) |
| `CheckFormService.InsertIsSorted` | src/services/check-form.service.ts:9 | Inserting into a priority-sorted list keeps it sorted, and the new head is either the inserted item or the old head |
| `CheckFormService.InsertIsStable` | src/services/check-form.service.ts:9 | The inserted item lands ahead of the items of its own priority; other priorities' subsequences are unchanged |
| `CheckFormService.SortByPriority` | src/services/check-form.service.ts:8-10 | The output has the input's length, is a permutation of it (same multiset) and is non-decreasing in priority |
| `CheckFormService.SortIsStable` | src/services/check-form.service.ts:9 | Stability: for every priority, the items of that priority appear in fetch order |
| `CheckFormService.StableSortIsUnique` | src/services/check-form.service.ts:9 | Two priority-sorted lists with equal per-priority subsequences are equal |
| `CheckFormService.SortByPriorityIsTheStableSort` | src/services/check-form.service.ts:9 | Any sorted list that keeps every priority's items in input order equals `SortByPriority` of the input, i.e. is what the built-in stable sort returns |
| `CheckFormService.SortedEnds` | src/services/check-form.service.test.ts:45-52 | The first sorted item has the least priority of the input and the last the greatest |
| `CheckFormService.GetCheckFormItems` | src/services/check-form.service.ts:5-18 | A rejected fetch is returned with the same error; a fetched list becomes a same-length, priority-sorted permutation of its checks in the stable-sort order, all answers unset, item 0 enabled and all others disabled |
| `VerificationForm.IsSubmitEnabled` | src/containers/VerificationForm/VerificationForm.tsx:34-39 | Holds iff every answer is "yes" or some answer is "no"; true on the empty list |
| `VerificationForm.SubmitEnabledWhenAllAnswered` | src/containers/VerificationForm/VerificationForm.tsx:34-39 | A list whose every item holds an answer is submittable |
| `VerificationForm.SelectItem` | src/containers/VerificationForm/VerificationForm.tsx:49-79 | Keeps length, ids, priorities and descriptions; items before i are unchanged; item i takes the answer and keeps its disabled flag; later answers are unchanged; "no" disables every later item; "yes" enables item i+1 and each later item j iff item j-1's previous answer was "yes" |
| `VerificationForm.SelectYesGatesOnPredecessor` | src/containers/VerificationForm/VerificationForm.tsx:61-71 | After a "yes" at i, each item after i is enabled iff its predecessor now holds "yes" |
| `VerificationForm.InitializedIsGateSound` | src/containers/VerificationForm/VerificationForm.tsx:82-91 | The reset state satisfies the gate invariant (first item enabled, enabled items have a "yes" predecessor) |
| `VerificationForm.SelectPreservesGate` | src/containers/VerificationForm/VerificationForm.tsx:51-74 | Any selection, at any index and with either value, preserves the gate invariant |
| `VerificationForm.SelectIsIdempotent` | src/containers/VerificationForm/VerificationForm.tsx:51-74 | Repeating the same selection changes nothing further |
| `VerificationForm.ResetIgnoresSelection` | src/containers/VerificationForm/VerificationForm.tsx:110-111 | Resetting after a selection gives the same list as resetting before it |
| `VerificationForm.SubmitEnabledAfterNo` | src/containers/VerificationForm/VerificationForm.tsx:34-39 | After a "no" on any existing item the form is submittable |
| `VerificationForm.InitialNotSubmittable` | src/containers/VerificationForm/VerificationForm.tsx:34-39 | A freshly loaded or reset non-empty form is not submittable |
| `VerificationForm.AnswerYesInOrder` | src/containers/VerificationForm/VerificationForm.test.tsx:187-235 | Answering "yes" on items 0..k-1 in order from the initial state answers exactly those items and enables exactly items 0..k; the form is submittable iff k is the number of items |
| `VerificationForm.SubmittedResults` | src/containers/VerificationForm/VerificationForm.tsx:97-101 | The answered, enabled items, in list order, each as its id and answer; never more results than items |
| `VerificationForm.SubmittedResultsSpec` | src/containers/VerificationForm/VerificationForm.tsx:97-101 | The k-th submitted record is `{checkId: id, result}` of the k-th answered, enabled item in list order, and every answered, enabled item is sent |
| `VerificationForm.SubmittedResultsAreAnswered` | src/containers/VerificationForm/VerificationForm.tsx:98 | Every submitted record carries "yes" or "no" |
| `VerificationForm.NothingSubmittedUnanswered` | src/containers/VerificationForm/VerificationForm.tsx:97-101 | With no item answered (as after a load or reset) nothing is submitted |
| `VerificationForm.PredecessorOnlyGate` | src/containers/VerificationForm/VerificationForm.tsx:63-66 | On four items, yes 0, yes 1, yes 2, no 1, no 0, yes 0 (each step a change of an enabled item's answer) leaves item 2 disabled and item 3 enabled; then yes 3 submits yes, no, yes |
| `VerificationForm.FocusAfterKey` | src/containers/VerificationForm/VerificationForm.tsx:125-143 | A new focus is in range and enabled; ArrowUp moves only to index-1 and ArrowDown only to index+1 (-1 counting as 0), and each moves whenever that neighbour exists and is enabled; other keys, and ArrowUp from -1, change nothing |
| `VerificationForm.Form.constructor` | src/containers/VerificationForm/VerificationForm.tsx:28-31 | Mounts with no items, focus -1, not submitted |
| `VerificationForm.Form.SubmitButtonDisabled` | src/containers/VerificationForm/VerificationForm.tsx:205 | The button is disabled while a submission is in flight; an idle form with every item answered has it enabled |
| `VerificationForm.Form.OnItemSelect` | src/containers/VerificationForm/VerificationForm.tsx:49-79 | The items become `SelectItem` of the old items; the gate invariant is kept |
| `VerificationForm.Form.InitForm` | src/containers/VerificationForm/VerificationForm.tsx:82-91 | The items become the reset of the given list and `isSubmitted` is false |
| `VerificationForm.Form.OnArrowKey` | src/containers/VerificationForm/VerificationForm.tsx:125-143 | The focus becomes `FocusAfterKey` of the old focus; nothing else changes |
| `VerificationForm.Form.OnItemFocus` | src/containers/VerificationForm/VerificationForm.tsx:183-185 | A group reporting focus becomes the focused index; a blur report changes nothing |
| `VerificationForm.Form.OnFormSubmit` | src/containers/VerificationForm/VerificationForm.tsx:93-101 | Marks the submission in flight, so the submit button is disabled, and returns `SubmittedResults` of the items |
| `VerificationForm.Form.OnSubmitSettled` | src/containers/VerificationForm/VerificationForm.tsx:103-111 | Whatever the outcome, the items become the reset of the old items and `isSubmitted` is false; the alert text depends on the outcome |
| `RadioButtonGroup.ParseIntOfDigitKey` | src/components/RadioButtonGroup/RadioButtonGroup.tsx:69 | A digit key parses to its digit value |
| `RadioButtonGroup.ParseInt` | src/components/RadioButtonGroup/RadioButtonGroup.tsx:69 | Decimal `parseInt` of the key: skips leading white space and one sign, then reads the longest digit run; no digits gives NaN (None). The empty key is NaN, and a key made only of digits reads as its decimal value |
| `RadioButtonGroup.ParseIntOfNamedKey` | src/components/RadioButtonGroup/RadioButtonGroup.tsx:69-74 | A key starting with a character that is not white space, a sign or a digit parses to NaN |
| `RadioButtonGroup.FindFrom` | src/components/RadioButtonGroup/RadioButtonGroup.tsx:79-82 | From position `index` on, the search finds a child iff the key-th child lies beyond `index` and is a RadioButton, and then returns that child |
| `RadioButtonGroup.Find` | src/components/RadioButtonGroup/RadioButtonGroup.tsx:79-82 | Key k finds the k-th child iff 1 <= k <= number of children and that child is a RadioButton |
| `RadioButtonGroup.RenderOptions` | src/components/RadioButtonGroup/RadioButtonGroup.tsx:137-159 | Only RadioButton children are rendered, each of them is rendered, each named "options-" + id, checked iff its value is the selected value, disabled iff the group is |
| `RadioButtonGroup.RenderOptionsSpec` | src/components/RadioButtonGroup/RadioButtonGroup.tsx:137-159 | One option per RadioButton child, in child order: the k-th option is the option for the child at the k-th RadioButton index, those indices increase, and every RadioButton index is listed |
| `RadioButtonGroup.RenderOptionsConcat` | src/components/RadioButtonGroup/RadioButtonGroup.tsx:137-159 | Rendering a concatenation of child lists is rendering each list in turn |
| `RadioButtonGroup.RenderOptionsInOrder` | src/components/RadioButtonGroup/RadioButtonGroup.tsx:137-159 | With only RadioButton children, the k-th rendered option is the k-th child |
| `RadioButtonGroup.ClassNames` | src/components/RadioButtonGroup/RadioButtonGroup.tsx:122-126 | Exactly the classes `classNames` yields: "radio-btn-group" first, "--focus" iff focused, "--disabled" iff the disabled prop is set, and no other class |
| `RadioButtonGroup.ChangeNotification` | src/components/RadioButtonGroup/RadioButtonGroup.tsx:97-102 | On a change of the selection, the parent's onChange is called with the new value iff it is non-empty |
| `RadioButtonGroup.Group.constructor` | src/components/RadioButtonGroup/RadioButtonGroup.tsx:43-44 | Starts with an empty selection, unfocused |
| `RadioButtonGroup.Group.OnValueChange` | src/components/RadioButtonGroup/RadioButtonGroup.tsx:47-49 | A clicked option's value becomes the selection |
| `RadioButtonGroup.Group.HandleFocus` | src/components/RadioButtonGroup/RadioButtonGroup.tsx:51-57 | The group becomes focused and reports `true` to the parent |
| `RadioButtonGroup.Group.HandleBlur` | src/components/RadioButtonGroup/RadioButtonGroup.tsx:59-65 | The group becomes unfocused and reports `false` to the parent |
| `RadioButtonGroup.Group.SyncFocusProp` | src/components/RadioButtonGroup/RadioButtonGroup.tsx:105-113 | The focused state takes the `focus` prop |
| `RadioButtonGroup.Group.SyncValueProp` | src/components/RadioButtonGroup/RadioButtonGroup.tsx:116-118 | The selection takes the `value` prop |
| `RadioButtonGroup.Group.OnKeyPress` | src/components/RadioButtonGroup/RadioButtonGroup.tsx:67-91 | While focused, key k with 1 <= k <= number of children selects the k-th child's value if it is a RadioButton; otherwise (unfocused, NaN, out of range, other child) the selection is unchanged; the disabled prop is not consulted |

## Left out

- The remote calls `fetchChecks` and `submitCheckResults` are left out: their `./api` module is not part of this model. A fetch result is the `Result` passed to `GetCheckFormItems`. A submit outcome is the `succeeded` parameter of `Form.OnSubmitSettled`.
- `saveCheckFormResults` (check-form.service.ts:20-29) is left out. It only forwards to `submitCheckResults` and re-raises its error.
- The asynchronous load effect and the loading flag are left out (VerificationForm.tsx:146-169). So are the "Loading..." and fetch-failure messages. A successful load amounts to `Form.InitForm` with the loaded items.
- DOM side effects are left out: `alert` (modelled only as the returned text), `blurCurrentActiveElement`, `formRef.reset`, and `.focus()`/`.blur()` on refs.
- `useKeyPress` is left out: it is the window listener wiring, and key presses are method calls here. So is React's effect ordering and re-render timing. The wiring between the two components is not modelled either: the form's `focus`/`disabled` props reaching a group, and a group's `onChange` reaching `OnItemSelect`.
- `RadioButton`, `Button`, `App` and the style sheets are left out. They only compose class names.
- The submit button's `disabled` attribute is modelled as the predicate `Form.SubmitButtonDisabled`. The handler methods do not require it, because the handler itself does not check it.
- `Form.OnItemSelect` takes a natural-number index. The source crashes on "yes" with an index below -1, and no caller can pass one.
- `Form.InitForm` requires that the current focus still fits the new list. Both callers meet this: the load runs while nothing is focused, and the submit handler reuses the same list.
- `VerificationForm.IsSubmitEnabled` holds for an empty list, as `every` does. The form shows no button for an empty list.
- `RadioButtonGroup.ParseInt`: does not model the `0x` hexadecimal prefix that `parseInt` accepts without a radix. It also does not model white space beyond space, tab, line feed and carriage return. No key name starts with either.
- `RadioButtonGroup.Group.HandleFocus`, `RadioButtonGroup.Group.HandleBlur` and `RadioButtonGroup.ChangeNotification` assume that the optional `onFocus` and `onChange` callbacks are passed. The source skips a missing callback (RadioButtonGroup.tsx:54, 62 and 98). The form always passes both.
- `RadioButtonGroup.ChangeNotification`: the model does not capture that the notifying effect runs only when `selectedValue` changes. A selection equal to the current one sends no `onChange`. For example, after a submit `initForm` clears the form's answers but each group keeps its selection, so pressing the key of that same answer again does not reach `onItemSelect`.
- `RadioButtonGroup.Group.SyncValueProp`: the form never passes a `value` prop, so the source sets the selection to `undefined`. Here that is the empty string. Both are falsy, and they differ only against an option whose value is "".
- Priorities compared through `itemA.priority - itemB.priority` on floating-point numbers are modelled as exact integer comparison.
