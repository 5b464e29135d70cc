# ParentSize state logic in Dafny

`ParentSize` is a UI component that measures the box of its wrapping element
(width, height, top, left), passes the measurement to a render function, and
re-measures when the element is resized. Each new measurement goes through a
debounced `setState` reducer. The reducer keeps the committed measurement when
every field that changed is named in the `ignoreDimensions` option. Otherwise
it commits the whole new measurement.

This project models that state logic in one module, `ParentSize`
(`parent_size.dfy`):

- `State` is the four-field measurement and `ZERO` the initial one.
- `Field` names the four fields, and `STATE_KEYS` lists them in record order.
- `IgnoreDimensions` is the option: one field name or a list of names.
  `IgnoreOrDefault` applies the default empty list, and `Normalize` turns the
  option into a list.
- `Reduce` is the reducer. `Changed` models the `filter` over the record's
  keys, `AllIncluded` models the `every`/`includes` test, and
  `KeysWithChanges` applies the filter to all keys.
- `Bails` is the reference definition of the bail-out decision: every
  differing field is in the list.
- A `Commit` pairs a measurement with the ignore list the reducer used for
  it. `Replay` folds `Reduce` over a sequence of commits, and the lemmas
  about it give the invariant over any run of commits.
- The class `Component` is the component's state cell. It holds the
  normalised ignore list of the current reducer, the committed `state` and a
  ghost history of commits. `Resize` performs one debounced commit.
  `SetIgnoreDimensions` is a new `ignoreDimensions` option on a mounted
  component: the reducer gets a new list and the committed state is kept.
- `MergeStyles` is `{ ...defaults, ...overrides }` for the wrapper's styles.
  A style value is a string or a number.

Field values are integers, and equality of integers stands for the source's
`!==` on numbers.

## Model

| member | source | states |
|---|---|---|
| `ParentSize.Get` | src/ParentSize.tsx:76 | The value of one field of a measurement (`existing[key]`, `incoming[key]`). It has no contract of its own; `StateExtensional` states that the four fields determine the measurement. |
| `ParentSize.StateExtensional` | src/ParentSize.tsx:30-35 | Two measurements that agree on all four fields are equal. |
| `ParentSize.Differs` | src/ParentSize.tsx:76 | Whether one field differs between the two measurements. Equal measurements differ in no field. |
| `ParentSize.IgnoreOrDefault` | src/ParentSize.tsx:47 | With no option the empty list is used; a given option is used as it is. |
| `ParentSize.Normalize` | src/ParentSize.tsx:67-69 | A single name becomes the one-element list of that name, and a list passes through unchanged. A field is in the result exactly when the caller named it. |
| `ParentSize.DefaultIgnoresNothing` | src/ParentSize.tsx:39 | With the default option no field is in the normalised list. |
| `ParentSize.Changed` | src/ParentSize.tsx:75-77 | The filtered keys are at most as many as the input keys. A field is in the result exactly when it is an input key whose values differ. |
| `ParentSize.AllIncluded` | src/ParentSize.tsx:78-80 | True exactly when every key is in the list, including when there are no keys. |
| `ParentSize.KeysWithChanges` | src/ParentSize.tsx:74-77 | The changed keys are exactly the fields whose values differ. The list is empty exactly when the two measurements are equal. |
| `ParentSize.ChangedOverStateKeys` | src/ParentSize.tsx:74-77 | Filtering the record's four keys finds every differing field, and finds none exactly when the measurements are equal. |
| `ParentSize.Reduce` | src/ParentSize.tsx:72-83 | The result is exactly `existing` or exactly `incoming`, never a mix. It is `existing` when every differing field is ignored, including when none differs. Otherwise it is `incoming`. Every non-ignored field equals the incoming one. With an empty list the result is always `incoming`. |
| `ParentSize.CommitIsWhole` | src/ParentSize.tsx:75-82 | If the state changes, some differing field is outside the list, and the ignored fields also take their incoming values. |
| `ParentSize.ReduceIdempotent` | src/ParentSize.tsx:73-83 | Applying the same measurement twice gives the same state as applying it once. |
| `ParentSize.Replay` | src/ParentSize.tsx:59-83 | The state cell after a run of `setState` commits, each under the ignore list of its own reducer. It has no contract of its own; the three lemmas below state its properties. |
| `ParentSize.ReplayAgreesWithLast` | src/ParentSize.tsx:59-83 | After any non-empty run of commits, every field outside the latest commit's list equals that field of the latest measurement, whatever lists earlier commits used. |
| `ParentSize.ReplayIsSomeUpdate` | src/ParentSize.tsx:59-83 | After any run of commits the state is the initial state or exactly one of the committed measurements. |
| `ParentSize.EmptyIgnoreReplayIsLast` | src/ParentSize.tsx:75-82 | When the latest commit ignores nothing, the state after the run is the latest measurement. |
| `ParentSize.Component.constructor` | src/ParentSize.tsx:59-69 | A new component holds the zero state, no commits, and the normalised option (or the empty default). |
| `ParentSize.Component.SetIgnoreDimensions` | src/ParentSize.tsx:66-88 | A new option rebuilds the reducer with the newly normalised list. The committed state and the history of commits are kept, and the invariant still holds. |
| `ParentSize.Component.Resize` | src/ParentSize.tsx:71-83 | One commit. It records the measurement with the current list and makes the state the reducer's result, so the state is the old one or the incoming one. The state stays unchanged when every differing field is ignored. Every non-ignored field then equals the incoming one. It keeps the invariant that the state is the replay of all commits from zero. |
| `ParentSize.MergeStyles` | src/ParentSize.tsx:114 | Without overrides the styles are the defaults. With overrides, the keys are the default keys plus the caller's keys, and every caller key keeps the caller's value. `width` and `height` are always present and stay `100%` unless the caller overrides them. |
| `ParentSize.HalfWidthOverride` | src/ParentSize.tsx:40 | An override of `{width: '50%'}` gives width 50% and keeps height 100%. |
| `ParentSize.FirstMeasurementCommitted` | src/ParentSize.tsx:59-64 | From the zero state, a 200 by 100 measurement is committed as it is. |
| `ParentSize.IgnoreOffsetsScenario` | src/ParentSize.tsx:78-82 | With `top` and `left` ignored, a change to only those fields is dropped. A change that also alters the width is committed whole, new offsets included. |

## Left out

- Debouncing (`lodash.debounce`, its delay, leading/trailing calls and `resize.cancel()`): this is a foreign library built on timers. Each debounced commit is one call of `Component.Resize`. The defaults `debounceTime = 300` and `enableDebounceLeadingCall = true` are therefore not modelled.
- The guarantee that nothing is committed after unmount: it rests on `resize.cancel()`, `cancelAnimationFrame` and the observer's `disconnect`, which are all outside the model.
- `ResizeObserver`, the polyfill lookup on `window`, `requestAnimationFrame` and `observer.observe`: browser I/O and event-loop scheduling.
- React machinery (`forwardRef`, `useState`, `useMemo`, `useEffect`, rendering, and calling `children` with the state, `ref` and `resize`): framework glue. `mergeRefs` is a foreign call on DOM references.
- Floating-point numbers: field values are integers. A NaN field would always count as changed under `!==`, and the model cannot express that.
- Missing content rectangles: fields destructured from `{}` are `undefined` in the source. Here every field has a value.
- Extra properties on a record passed to the exposed `resize`: `Object.keys(existing)` takes the keys of the committed record only, so an extra property is not compared on the commit that brings it. It is committed with the record when another field differs, and from the next commit on it is compared too. Here a measurement has exactly four fields.
- A measurement still waiting in the old debounced reducer when the option changes: rebuilding the reducer cancels it through the effect cleanup, which belongs to the debouncing left out above.
- `ParentSize.MergeStyles`: style values are strings or integers. An override whose value is `undefined`, which object spread copies over the default, and fractional numbers are not modelled.
