# Prepack value form demo: pointer states, value form and filter cycle

This project models in Dafny the deterministic logic of a small Angular demo.
The DOM is replaced by plain inputs. There are three parts:

- **`ComponentStates`** (`component_state.dfy`) models the directive `ComponentStateDirective`.
  - It keeps four flags (hover, active, pressed, focus) in an insertion-ordered map.
  - It publishes the list of states that are on, or `[normal]` when none is, on its `componentStates` output.
  - A subscription made in its constructor copies each published list into `latestStates`.
  - With `applyState` it keeps the CSS classes `hover`, `active` and `focus` in step with the flags.
  - It registers, and later releases, up to three transient global listeners.
  - DOM events are method calls. The event's composed path is a list of ids; `None` stands for a target that is not an HTMLElement.
  - The two `delay(1)` callbacks that arm the "click elsewhere" listeners are methods the environment calls. A pending counter guards each one.
  - The class invariant `Valid()` says three things:
    - while subscribed, `latestStates` equals the list derived from the flags;
    - the class set equals the classes for the flags when `applyState` is on, and is empty otherwise;
    - the map keeps the order of its initializer.
- **`PrepackValueForm`** (`prepack_value_form.dfy`) models `PrepackValueFormComponent`.
  - The form control is a nullable integer with a dirty flag.
  - Increment and decrement follow JavaScript truthiness: `null` and `0` behave alike.
  - The Enter key searches for the next eligible field over a document given as a map. The map sends each number n with an element `PrepackValue-n` to that element's placeholder.
  - Also modelled: the leading-zero rewrite, the button class string built from the pointer states, and the '.' key filter.
- **`AppRoot`** (`app.dfy`) models the root component `App`.
  - The filter value cycles 2 → 0 → 1 → 2.
  - `filtered` is an order-preserving selection of `data`.
  - The `delay(0)` recompute scheduled by `toggle` is a separate method.

The code and the documentation disagree in one place. The directive's doc comment (src/prepack-value-form/component-state.directive.ts:25) says mousedown applies hover. The code at lines 62-66 sets only active, focus and pressed. The model follows the code: `OnMouseDown` leaves hover as it was.

The "click elsewhere" test compares ids. A host element without an id has the id `''`. Such a host matches every HTMLElement on the path that also has no id, such as `<body>`, so a click elsewhere never clears its focus. The model keeps this comparison exactly as written, and `IdlessHostKeepsFocus` proves the consequence.

## Model

| member | source | states |
|---|---|---|
| ComponentStates.MapSet | src/prepack-value-form/component-state.directive.ts:40-45 | `Map.set` on a key already present keeps its place in the iteration order and changes only that key's value; a new key goes to the end; every other key reads as before |
| ComponentStates.ComponentStatesOfFlags | src/prepack-value-form/component-state.directive.ts:118-124 | for a map with the initializer's keys, the derived list is exactly the true flags in map order hover, active, pressed, focus, and `[normal]` when all four are off |
| ComponentStates.PublishedStates | src/prepack-value-form/component-state.directive.ts:118-124 | the derived list is never empty; it is `[normal]` iff every flag is off; it contains `normal` iff every flag is off; any other state is in it iff its flag is on |
| ComponentStates.Release | src/prepack-value-form/component-state.directive.ts:81-83 | `if (handle) handle()`: a set handle is no longer listening afterwards; an unset handle stays unset |
| ComponentStates.EngagedIffFlags | src/prepack-value-form/component-state.directive.ts:100 | while `latestStates` is current, the `find` test is true iff the active, focus or pressed flag is on |
| ComponentStates.ComponentStateDirective.constructor | src/prepack-value-form/component-state.directive.ts:36-77 | all flags off; `latestStates` is `[normal]`; no classes; no handles; subscribed; the invariant holds |
| ComponentStates.ComponentStateDirective.SetState | src/prepack-value-form/component-state.directive.ts:63-65 | setting one of the map's keys keeps the key order and changes exactly that flag |
| ComponentStates.ComponentStateDirective.GetAllComponentStates | src/prepack-value-form/component-state.directive.ts:118-124 | the `forEach` loop returns the list derived from the current map (proved against `ComponentStatesOf`) |
| ComponentStates.ComponentStateDirective.Emit | src/prepack-value-form/component-state.directive.ts:74-76 | an emission appends the derived list to the output and copies it into `latestStates` only while subscribed |
| ComponentStates.ComponentStateDirective.OnMouseEnter | src/prepack-value-form/component-state.directive.ts:52-56 | sets hover and no other flag; emits once; adds class `hover` iff `applyState`; keeps the invariant |
| ComponentStates.ComponentStateDirective.OnMouseLeave | src/prepack-value-form/component-state.directive.ts:57-61 | clears hover and no other flag; emits once; removes class `hover` iff `applyState`; keeps the invariant |
| ComponentStates.ComponentStateDirective.OnMouseDown | src/prepack-value-form/component-state.directive.ts:62-72 | sets active, focus and pressed; hover is unchanged; emits once; adds classes `active` and `focus` iff `applyState`; the mouseup listener is live; one arming is scheduled |
| ComponentStates.ComponentStateDirective.OnMouseDownDelayElapsed | src/prepack-value-form/component-state.directive.ts:70-71 | a scheduled arming makes the global mousedown listener live |
| ComponentStates.ComponentStateDirective.OnMouseUp | src/prepack-value-form/component-state.directive.ts:89-97 | clears pressed and active; focus and hover are unchanged; emits once; removes class `active` iff `applyState`; schedules one arming; releases the mouseup handle from mousedown |
| ComponentStates.ComponentStateDirective.OnMouseUpDelayElapsed | src/prepack-value-form/component-state.directive.ts:94-95 | a scheduled arming makes the global mouseup listener live |
| ComponentStates.ComponentStateDirective.OnClickElsewhere | src/prepack-value-form/component-state.directive.ts:99-116 | clears focus, and nothing else, emits once and removes class `focus` iff the old `latestStates` holds active, focus or pressed and no HTMLElement on the path has the host id; otherwise no flag, emission or class changes; both transient handles are released in every case |
| ComponentStates.ComponentStateDirective.NgOnDestroy | src/prepack-value-form/component-state.directive.ts:79-87 | each of the three handles that is set is released, so none of them is listening when it returns; later emissions no longer reach `latestStates`; armings still pending are not cancelled (see `ArmingsOutliveTeardown`) |
| ComponentStates.HoverOnlyRun | src/prepack-value-form/component-state.directive.ts:52-61 | with no press, each enter emits `[hover]`, each leave emits `[normal]`, and a click elsewhere emits nothing |
| ComponentStates.PressThenClickOutside | src/prepack-value-form/component-state.directive.ts:99-116 | press, then a click outside before release: emits `[active, pressed, focus]` then `[active, pressed]` |
| ComponentStates.PressRelease | src/prepack-value-form/component-state.directive.ts:89-97 | press then release, without hover: emits `[active, pressed, focus]` then `[focus]`; with `applyState` the one class left is `focus` |
| ComponentStates.ArmingsOutliveTeardown | src/prepack-value-form/component-state.directive.ts:70-95 | after a press and a release whose `delay(1)` armings are still pending at `ngOnDestroy`, both global "click elsewhere" listeners are live once the delays elapse, although the subscription has ended |
| ComponentStates.IdlessHostKeepsFocus | src/prepack-value-form/component-state.directive.ts:99-106 | a pressed host without an id keeps focus, and emits nothing, on a click elsewhere whose path holds any HTMLElement without an id |
| PrepackValueForm.IncIsOneStepUp | src/prepack-value-form/prepack-value-form.component.ts:67 | increment writes the old value plus one step, with `null` and 0 both counting as 0 |
| PrepackValueForm.DecEdgeCases | src/prepack-value-form/prepack-value-form.component.ts:75 | decrement of `null` or 0 writes 0; any other value moves down one full step, with no lower clamp, so a positive value below the step turns negative |
| PrepackValueForm.DecAfterInc | src/prepack-value-form/prepack-value-form.component.ts:64-77 | decrement after increment with the same step restores the start value (`null` as 0), except when the increment lands on 0; then the result is 0 |
| PrepackValueForm.PrepackValueFormComponent.Inc | src/prepack-value-form/prepack-value-form.component.ts:64-70 | with the input present: control marked dirty, value `(old ? old : 0) + step`, one write, `button.inc` sent; without it: nothing changes |
| PrepackValueForm.PrepackValueFormComponent.Dec | src/prepack-value-form/prepack-value-form.component.ts:72-78 | with the input present: control marked dirty, value `old ? old - step : 0`, one write, `button.dec` sent; without it: nothing changes |
| PrepackValueForm.PrepackValueFormComponent.FindNextField | src/prepack-value-form/prepack-value-form.component.ts:82-89 | returns the smallest index in `tabIndex+1 .. tabIndex+99` whose element exists and whose placeholder (or `''`) is not a hidden size; returns none iff no index in that range qualifies |
| PrepackValueForm.PrepackValueFormComponent.OnKeyDownEnter | src/prepack-value-form/prepack-value-form.component.ts:80-90 | focuses at most that one field; sends at most one value on `scrollToNextSize$`: the focused field's placeholder, only when it is non-empty |
| PrepackValueForm.PrepackValueFormComponent.OnKeyUpTab | src/prepack-value-form/prepack-value-form.component.ts:92-94 | sends the field's placeholder exactly when it is present and non-empty |
| PrepackValueForm.PrepackValueFormComponent.CheckSizeUnitsKeyup | src/prepack-value-form/prepack-value-form.component.ts:96-99 | rewrites the value as `Number(value)` (`null` becomes 0) exactly when the text is longer than one character and starts with '0'; otherwise the control is untouched |
| PrepackValueForm.PrepackValueFormComponent.OnComponentState | src/prepack-value-form/prepack-value-form.component.ts:101-110 | the class string becomes the tokens of the given states joined by spaces |
| PrepackValueForm.ButtonStateClassSeparators | src/prepack-value-form/prepack-value-form.component.ts:101-110 | the class string of n states has exactly n - 1 spaces (none for no state): one token per state, no token holds a space |
| PrepackValueForm.ButtonStateClassMarksHover | src/prepack-value-form/prepack-value-form.component.ts:101-110 | the class string contains `prepack-unit-button` iff `hover` is among the states; without hover it is all spaces |
| PrepackValueForm.PreventKeydown | src/prepack-value-form/prepack-value-form.component.ts:112-114 | the event's default action is prevented afterwards iff its key is '.' or it was already prevented: any other key leaves the event as it was, and a prevention is never undone |
| AppRoot.OfType | src/main.ts:78 | `data.filter` by type is an order-preserving subsequence of the data; every item in it has that type; each item of that type appears as often as in the data, and no other item appears |
| AppRoot.ShownSelectsData | src/main.ts:78 | the list for any filter value is a subsequence of the data: for 0 and 1 exactly the items of that type, for 2 all the data |
| AppRoot.FilterCycles | src/main.ts:79-82 | after n toggles from a value in 0..2 the filter is `(value + n) % 3`, so it stays in 0..2 and cycles with period three |
| AppRoot.App.constructor | src/main.ts:62-70 | after the constructor's single toggle the filter is 0, `filtered` is all of the data, and one recompute is pending |
| AppRoot.App.Toggle | src/main.ts:77-84 | `filtered` becomes the list for the filter value before the toggle; the value advances 0→1→2→0; one recompute is scheduled; `filtered` stays a subsequence of the data |
| AppRoot.App.RunDeferredRecompute | src/main.ts:83 | the deferred step recomputes `filtered` from the filter value current when it runs |
| AppRoot.StartUp | src/main.ts:68-70 | right after construction every item is shown with filter 0; once the recompute has run, the list is `data.filter` for type 0: exactly the items of type 0, in their order and with their multiplicity |

## Left out

- `src/animation.utilities.ts` (`onAnimationDone`) is not part of this model. It is a thin wrapper over the Web Animations API and rxjs `merge`/`takeUntil`, and its ordering comes from those libraries.
- Timers are not modelled as time. The `delay(1)` armings and the `delay(0)` recompute are explicit methods. The 300 ms debounced `blur` after an increment or decrement is modelled only as the selector sent on `clicked$`.
- DOM and Angular wiring are replaced by inputs. This covers `Renderer2.listen`, `ElementRef`, `composedPath`, `getElementById`, `focus`/`blur`, and the component's `ngAfterViewInit` and `ngOnDestroy` button-listener wiring (prepack-value-form.component.ts:46-62). The path is a list of ids, the document a map from field number to placeholder, and the focused field a return value.
- Number coercion is not modelled. `+step` and `Number(...)` can give fractions or NaN in JavaScript; here the step and all values are integers. An absent `step` attribute counts as step 0.
- `applyState` is fixed when the directive is created. A later change of the input, which would break the class invariant, is not modelled.
- Only the directive's own three classes are tracked. Other classes on the host element are not modelled.
- A listener handle that is overwritten while still live is not tracked separately. Mousedown overwrites `afterMouseDown`, and the two `delay(1)` armings overwrite `wayAfterMouseDown` and `afterMouseUp`. The new handle simply replaces the old one, and the old listener's later calls are not modelled.
- Armings still pending at teardown are not cancelled, as in the code: the `delay(1)` subscriptions (component-state.directive.ts:70-71 and 94-95) are not tied to `unsub$`. Such an arming makes a global listener live after `ngOnDestroy`. `ArmingsOutliveTeardown` shows this.
- FormControl is reduced to its value, its dirty flag and a count of `setValue` writes. Validation, value-change streams and the view binding are not modelled.
- An item's form controls and scroll subject are not modelled, and neither is the random test data (main.ts:53-61). Also out: `dataMap`, `trackItemValues`, `bootstrapApplication`, the templates, the styles and the `console.log` lines.
