# imhtml: change detection and render scheduling, modelled in Dafny

imhtml is a base class for custom elements that re-render from tagged
templates. A component's `render()` returns the template's literal fragments
and its interpolated values. One frame loop, shared by the whole process,
visits every mounted component once per animation frame. It skips components
that are off-screen, renders the rest, and patches a component only when its
values differ from those it saw last time.

This project models that core, all of it in `mod.ts`:

- `values.dfy`, module `Values`: the template value and the value comparator
  (`compareTwo`). Any two functions are equal. Strictly identical values are
  equal. Two objects under different references compare by structure.
  Everything else is unequal. Objects and functions carry a reference number
  that stands for identity. An `Obj` is a snapshot of its own properties.
  `typeof` is modelled, with `null` reporting "object".
- `array_compare.dfy`, module `ArrayCompare`: the array comparator
  (`compare`). It is a loop with early exit, proved against the predicate
  `ArraysEqual`. It also reports, as a ghost output, the index where it
  stopped.
- `imhtml.dfy`, module `ImHtml`:
  - the component as a class whose fields the frame loop and the lifecycle
    update in place;
  - the frame loop as a `Scheduler` class holding the registry set;
  - one frame tick as a method over that set, proved against `TickOne`, the
    effect of a tick on one component;
  - the mount/unmount callback sets with their disposers;
  - the connect/disconnect transitions, with their order of effects recorded
    in an event log.
- `markup.dfy`, module `Markup`: the static `use` helper that writes
  `<im-html k="v" ...>children</im-html>`, and a reader that recovers the
  properties and children from that markup.

The process-wide `globalThis.__imhtml` object is an explicit `Scheduler`
passed to `Connect`/`Disconnect`. `started` records whether the global exists.
A render result, the `{strings, values}` pair built by the `t` tag
(mod.ts:80-82), is the datatype `RenderResult`. A concrete component's
`render()` is the field `view`, the render result of its current state.
`Render` returns it and counts the call. Every patch handed to the templating
library is appended to the field `patches`.

Behaviour that the code has and the model keeps:

- The value cache starts as `[]` (mod.ts:89). A visible component whose
  render yields no interpolated values is therefore never patched by the
  frame loop (`FirstTickAfterConstruction`).
- An object mutated in place keeps its reference. The comparator then sees
  strict identity and reports no change (`CompareTwo`, second `ensures`).
  The same holds for a shared object nested inside a fresh one: structural
  equality treats the same reference as equal at every depth
  (`SharedFieldsAreUnchanged`). The cache, however, keeps snapshots, not live
  objects: see the `ImHtml.Scheduler.Tick` line under "## Left out".
- The first registration in the process creates the set and runs one tick at
  once (mod.ts:58-76). `Register` and `Connect` state this.
- Callbacks are kept in a JavaScript `Set` (mod.ts:134-135), so registering
  the same function twice stores it once: it runs once per transition, and
  one disposer removes it.
- If a component is disconnected before any frame loop exists,
  `globalThis.__imhtml.components` throws (mod.ts:183). This happens after the
  unmount callbacks and the `unmount()` hook have run. `Disconnect` returns
  `ok == false` in that case and leaves the registry empty.
- `use` with absent properties writes `<im-html >`, with a space before the
  `>`. With absent children it writes the text `undefined`. The tag is always
  the base class's `im-html`.

## Model

| member | source | states |
|---|---|---|
| Values.CompareTwo | mod.ts:14-30 | any two functions are equal; strictly identical values are equal, so an object mutated in place reads as unchanged; values that are neither objects nor both functions are equal exactly when strictly identical; objects under different references are equal exactly when deep-equal; an object never equals a non-object |
| Values.SharedFieldsAreUnchanged | mod.ts:18-23 | a fresh object whose properties hold the same keys and, position by position, strictly identical values (shared objects possibly mutated in place, the same functions, equal primitives) compares equal to the previous one |
| Values.RenamedIsDeepEqual | mod.ts:20-23 | a deep copy of a value under any renaming of its object references, at every depth, is deep-equal to the original |
| Values.DeepEqualSymmetric | mod.ts:20-23 | structural equality is symmetric |
| Values.DeepEqualIsCompareEqual | mod.ts:18-23 | deep-equal values always compare equal, whatever their references |
| Values.CompareTwoSymmetric | mod.ts:14-30 | the value comparator gives the same answer with its arguments swapped |
| ArrayCompare.FirstMismatch | mod.ts:39-44 | the index where the scan stops: every earlier position compares equal, and the position itself (if inside the sequences) does not |
| ArrayCompare.Compare | mod.ts:34-46 | true exactly when both arrays are present, have equal length and compare equal at every position; an absent array or a length difference gives false; the scan stops at the first mismatching index |
| ArrayCompare.ArraysEqualReflexive | mod.ts:34-46 | a present array compares equal to itself |
| ArrayCompare.ArraysEqualSymmetric | mod.ts:34-46 | the array comparator gives the same answer with its arguments swapped |
| ArrayCompare.DeepCopyIsEqual | mod.ts:39-45 | a position-wise deep-equal copy under fresh references compares equal to the original |
| ArrayCompare.OneChangeIsDifferent | mod.ts:39-43 | replacing one value by one the comparator tells apart makes the arrays different |
| ImHtml.TickOne | mod.ts:65-71 | one tick leaves a hidden component exactly as it was; it renders at most once, never changes visibility or the render output, only appends to the patch log and at most the fresh result, and leaves a visible component's cache holding the fresh values |
| ImHtml.PatchedIffChanged | mod.ts:66-71 | in one tick a visible component is rendered once, patched with the fresh fragments and values exactly when its values changed, and its cache is overwritten with the fresh values either way |
| ImHtml.HiddenStaysUntouched | mod.ts:65-66 | a component whose visibility flag is false is never rendered, patched or re-cached, however many ticks run |
| ImHtml.SecondTickPatchesNothing | mod.ts:67-71 | a second tick with unchanged render output patches nothing |
| ImHtml.CachedViewIsNeverPatched | mod.ts:64-74 | once the cache holds the current values, any number of further ticks patch nothing and keep the cache |
| ImHtml.SteadyStatePatchesAtMostOnce | mod.ts:64-74 | while a component's state stays the same, any number of ticks patch it at most once, and only in the first tick |
| ImHtml.OneChangedValueGivesOnePatch | mod.ts:67-70 | values that differ from the cache at exactly one position cause exactly one patch, carrying the fresh fragments and values |
| ImHtml.FirstTickAfterConstruction | mod.ts:88-89 | with the cache starting as `[]`, the first tick patches a new visible component exactly when its render yields at least one value |
| ImHtml.Callbacks.Add | mod.ts:137-149 | registering a callback adds it to its own phase's set and leaves the other set as it was |
| ImHtml.Callbacks.Remove | mod.ts:139-148 | a disposer removes exactly its own callback from its own phase's set and nothing else |
| ImHtml.AddIsIdempotent | mod.ts:134-138 | registering a callback twice has the same effect as registering it once |
| ImHtml.DisposeUndoesAdd | mod.ts:137-149 | disposing right after registering a new callback restores both sets |
| ImHtml.EnumerationRunsEachOnce | mod.ts:153 | running a transition's callbacks runs as many callbacks as the set holds, each once |
| ImHtml.Component.constructor | mod.ts:87-111 | a new component is visible, has an empty value cache, no callbacks and nothing patched |
| ImHtml.Component.Render | mod.ts:113 | render returns the render result of the current state |
| ImHtml.Component.Update | mod.ts:115-125 | patches with the given fragments and values, or renders first when either is absent |
| ImHtml.Component.SetView | mod.ts:113 | after the application changes its state, `render()` yields the new result |
| ImHtml.Component.SetIntersecting | mod.ts:163-170 | the visibility flag follows the observer's intersecting state |
| ImHtml.Component.OnMount | mod.ts:137-142 | adds the callback to the mount set and returns the disposer for it |
| ImHtml.Component.OnUnmount | mod.ts:144-149 | adds the callback to the unmount set and returns the disposer for it |
| ImHtml.Component.Dispose | mod.ts:139-148 | calling a disposer removes exactly that callback |
| ImHtml.Component.RunCallbacks | mod.ts:153 | every callback of the phase runs exactly once and nothing else is logged |
| ImHtml.Component.Connect | mod.ts:151-158 | mount callbacks run, then the `mount()` hook if defined, then the component is in the registry; the first registration in the process also runs one tick on it |
| ImHtml.Component.Disconnect | mod.ts:179-184 | unmount callbacks run, then the `unmount()` hook if defined, then the component is no longer in the registry; the removal fails when no frame loop exists |
| ImHtml.Scheduler.constructor | mod.ts:53-60 | before the first registration no frame loop exists and the registry is empty |
| ImHtml.Scheduler.Tick | mod.ts:64-74 | every registered component takes exactly the step `TickOne` of its previous state; callbacks and lifecycle events are untouched |
| ImHtml.Scheduler.Register | mod.ts:51-77 | the registry becomes the old registry plus the component (set semantics, so registering twice equals registering once); the first registration creates the registry and ticks the component once |
| ImHtml.Scheduler.Unregister | mod.ts:183 | the registry loses exactly the component; fails when no frame loop exists |
| Markup.Use | mod.ts:93-97 | the markup opens with `<im-html ` and closes with `</im-html>` |
| Markup.UseRoundTrip | mod.ts:93-97 | reading back the markup `use` writes gives back its properties, in order, and its children, for keys without `=` or `>` and values without `"` |
| Markup.ParseAttributesRoundTrip | mod.ts:95 | the space-separated `key="value"` list, followed by `>`, reads back to the property list and the text after the `>` |
| Markup.AbsentPropsAreEmpty | mod.ts:94-96 | absent properties write the same markup as an empty list, leaving a space before the `>` |
| Markup.AbsentChildrenReadUndefined | mod.ts:96 | absent children are written as the text `undefined` |

## Left out

- DOM and shadow-root work: the patch that `render(this.shadowRoot, uhtml(...))` applies (mod.ts:110, mod.ts:124) is an entry appended to `patches`.
- `deepEqual` comes from `deps.ts`, which is not part of this model. It is stood in for by `DeepEqual`: structural equality over own properties in order, where the same object reference is equal at any depth and nested functions are compared by reference.
- The visibility observer: creating the `IntersectionObserver` after the 100 ms delay, its 100px margin, and disconnecting it (mod.ts:161-176, mod.ts:182). `SetIntersecting` stands for its notification.
- `requestAnimationFrame` rescheduling (mod.ts:73): the model has one tick per `Tick` call, not an endless loop.
- Floating point and JavaScript runtime details: numbers are integers (no NaN), and property values in `use` are already text (no `String(...)` conversion).
- Effects of the callbacks and hooks themselves: a run is a log entry. Callbacks that register or dispose callbacks while the set is iterated, and renders or callbacks that throw, are not modelled.
- Mid-tick changes to the registry: a render cannot unmount a component in the model.
- The `h`/`html` re-export and the `template`/`t` members (mod.ts:85, mod.ts:102-106) are aliases with no logic. The `t` tag is the `RenderResult` datatype.
- ImHtml.Component.RunCallbacks: states that each registered callback runs exactly once, in some order. It does not state the insertion order in which a JavaScript `Set` iterates, because the sets are modelled as unordered Dafny sets.
- ImHtml.Scheduler.Tick: the value cache holds snapshots of the objects, while the program caches the objects themselves (mod.ts:71) and compares them in their state at the next frame (mod.ts:68). When a cached object is mutated after it was cached, and the next render yields a different object equal to its new state, the program sees no change and skips the patch, while the model compares against the old snapshot and patches. The same applies to objects mutated while the component is hidden. The model is exact when cached objects are not mutated after caching, or when the render yields the mutated objects themselves. Objects are not modelled through a heap, because a live comparison over a possibly cyclic object graph is not captured by the value datatype.
- ImHtml.Scheduler.Tick: visits components in an order it leaves open, not insertion order. Each component's step touches only its own fields, so the final state is the same for every order.
- `test/server.ts`: an HTTP dev server and bundler, not part of the core.
