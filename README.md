# Small logic cores of four AndroidX files, modelled in Dafny

This project models four small pieces of logic from the AndroidX source tree:

- **Health services, `UserActivityState`** (`user_activity_state.dfy`). This is an enum of four
  activity states with integer ids. It has `fromId`, which returns the first declared constant
  with a given id or null. It also converts to and from the generated protocol-buffer enum,
  with fallbacks to UNKNOWN.
- **Compose foundation, `TextField`** (`text_field.dfy`). This covers the value synchronisation
  of both `TextField` overloads:
  - the remembered model is replaced only when the incoming value differs, with the selection
    coerced into `[0, text.length]`;
  - the list `Saver` of the deprecated `TextFieldValue`;
  - the deprecated wrapper that forwards an edit only when its text or selection changed;
  - the edit and focus callbacks;
  - the cursor: a commit effect that sets the cursor colour, blinking or holding it while a
    cursor is needed (the field is focused and the selection is collapsed) and snapping to
    Transparent otherwise, re-run only when the cursor colour, the focus or the model changes;
    and a cursor modifier attached only while a cursor is needed.

  Text is a sequence of UTF-16 code units (`CodeUnit`, 0 to 0xFFFF), which is what Kotlin's
  `String.length` counts, so `text.length` is `|text|`.

  The remembered state is a class with a `fullModel` field. `CursorState` is a class of its own.
- **Wear watch-face editor sample, `WatchFaceConfigActivity.init`** (`watch_face_config.dfy`).
  It counts the top-level options of an editor session, makes at most one fragment-controller
  call, and its back-stack listener finishes the activity once the stack is empty. The activity
  is a class. Its controller calls are recorded in a `controllerCalls` field.
  A consistent session (`ConsistentSession`) has distinct complication ids, and its background
  complication id, if any, is one of them, since both come from the same complication map.
- **Compose lint, `ComposableUtils`** (`composable_utils.dfy`). This is the composable-body
  analysis. The syntax tree above a call is a sequence `chain`: `chain[0]` is the call itself,
  and `chain[i + 1]` is the parent of `chain[i]`. An element is identified by its position in
  the chain. Two searches are modelled as methods with loops, each proved equal to a
  specification function:
  - `BoundaryUElement` skips local properties, anonymous classes and members of anonymous
    classes;
  - `ParentUElements` walks up from the call until the first lambda, method or boundary.

  The composable rules for variables, parameters and lambdas, and the two public predicates,
  are functions over the chain.

`options.dfy` defines the `Option` datatype that stands for Kotlin's nullable types.

## Model

| member | source | states |
|---|---|---|
| UserActivityStates.Id | health/health-services-client/src/main/java/androidx/health/services/client/data/UserActivityState.kt:22-26 | the `id` each constant is declared with is its position in `values()`: 0 to 3 in declaration order |
| UserActivityStates.IdsDistinct | health/health-services-client/src/main/java/androidx/health/services/client/data/UserActivityState.kt:22-26 | the four constants carry pairwise different ids 0, 1, 2, 3 |
| UserActivityStates.IndexOfFirst | health/health-services-client/src/main/java/androidx/health/services/client/data/UserActivityState.kt:34 | the search behind `firstOrNull`: the index found satisfies the predicate and no earlier element does; no index means no element satisfies it |
| UserActivityStates.FirstOrNull | health/health-services-client/src/main/java/androidx/health/services/client/data/UserActivityState.kt:34 | a non-null result is the FIRST element of the list that satisfies the predicate (no earlier element does); null exactly when no element does |
| UserActivityStates.FromId | health/health-services-client/src/main/java/androidx/health/services/client/data/UserActivityState.kt:34 | a found constant carries the requested id; null exactly when the id is outside 0..3 |
| UserActivityStates.FromIdRoundTrip | health/health-services-client/src/main/java/androidx/health/services/client/data/UserActivityState.kt:34 | `fromId(s.id) == s` for every state |
| UserActivityStates.FromIdUnique | health/health-services-client/src/main/java/androidx/health/services/client/data/UserActivityState.kt:34 | `fromId(n)` is `s` if and only if `s.id == n`, so the first match is the only one |
| UserActivityStates.ForNumber | health/health-services-client/src/main/java/androidx/health/services/client/data/UserActivityState.kt:30 | the generated `forNumber` returns the first declared value with the requested number, or null exactly when none is declared |
| UserActivityStates.ToProto | health/health-services-client/src/main/java/androidx/health/services/client/data/UserActivityState.kt:29-30 | the result has the state's id as its number when the proto enum declares it; otherwise it is the proto UNKNOWN |
| UserActivityStates.FromProto | health/health-services-client/src/main/java/androidx/health/services/client/data/UserActivityState.kt:37-38 | total: an in-range number gives the state with that id, any other number gives USER_ACTIVITY_UNKNOWN |
| UserActivityStates.FromProtoTotal | health/health-services-client/src/main/java/androidx/health/services/client/data/UserActivityState.kt:37-38 | a result other than UNKNOWN is exactly what `fromId` found |
| UserActivityStates.ProtoRoundTrip | health/health-services-client/src/main/java/androidx/health/services/client/data/UserActivityState.kt:29-38 | `fromProto(toProto(s)) == s` whenever the proto enum declares the id of `s` |
| UserActivityStates.ProtoFallback | health/health-services-client/src/main/java/androidx/health/services/client/data/UserActivityState.kt:29-38 | when the proto enum lacks the id, `toProto` gives the proto UNKNOWN, which reads back as USER_ACTIVITY_UNKNOWN if its number is 0 |
| UserActivityStates.StateRoundTrip | health/health-services-client/src/main/java/androidx/health/services/client/data/UserActivityState.kt:29-38 | a declared proto value numbered 0..3 comes back unchanged from `toProto(fromProto(p))` |
| TextFields.CoerceIn | ui/ui-foundation/src/main/java/androidx/ui/foundation/TextField.kt:252-253 | Kotlin's `coerceIn(lo, hi)`: the result lies in `[lo, hi]`; a value inside is kept, one below gives `lo`, one above gives `hi` |
| TextFields.ClampSelection | ui/ui-foundation/src/main/java/androidx/ui/foundation/TextField.kt:251-254 | each endpoint is `coerceIn(0, text.length)` of the incoming one: kept when in range, 0 when negative, the text length when beyond it; so both end up in `[0, text.length]` and an in-range selection is left unchanged |
| TextFields.ClampIdempotent | ui/ui-foundation/src/main/java/androidx/ui/foundation/TextField.kt:251-254 | clamping twice equals clamping once |
| TextFields.ClampPreservesOrder | ui/ui-foundation/src/main/java/androidx/ui/foundation/TextField.kt:251-254 | start <= end stays so, start >= end stays so, and a collapsed selection stays collapsed |
| TextFields.Synchronized | ui/ui-foundation/src/main/java/androidx/ui/foundation/TextField.kt:249-260 | an equal model is kept; a differing model is replaced by the incoming text and composition with the incoming selection clamped endpoint by endpoint; so an in-range incoming value is adopted as it is |
| TextFields.SynchronizedIdempotent | ui/ui-foundation/src/main/java/androidx/ui/foundation/TextField.kt:249-260 | composing again with the same value changes the model no further |
| TextFields.LegacySynchronized | ui/ui-foundation/src/main/java/androidx/ui/foundation/TextField.kt:129-139 | only text and selection are compared; an equal model is kept, composition included; otherwise the model becomes the incoming text with the incoming selection clamped endpoint by endpoint and no composition |
| TextFields.LegacySynchronizedIdempotent | ui/ui-foundation/src/main/java/androidx/ui/foundation/TextField.kt:129-139 | composing the deprecated field again with the same value changes the model no further |
| TextFields.LegacyFeedbackStable | ui/ui-foundation/src/main/java/androidx/ui/foundation/TextField.kt:129-152 | feeding the forwarded edit back into the deprecated field keeps the stored model, composition included |
| TextFields.Save | ui/ui-foundation/src/main/java/androidx/ui/foundation/TextField.kt:100-103 | the saved list has three items: a string, then two ints |
| TextFields.Restore | ui/ui-foundation/src/main/java/androidx/ui/foundation/TextField.kt:104-106 | restoring succeeds exactly when the list has at least three items of the kinds string, int, int; otherwise the cast or index failure is `None` |
| TextFields.SaverRoundTrip | ui/ui-foundation/src/main/java/androidx/ui/foundation/TextField.kt:100-107 | restoring the saved list `[text, start, end]` gives an equal value |
| TextFields.RestoreSaveRoundTrip | ui/ui-foundation/src/main/java/androidx/ui/foundation/TextField.kt:100-107 | a restored value saves back to the first three items it was read from |
| TextFields.CursorAnimationFor | ui/ui-foundation/src/main/java/androidx/ui/foundation/TextField.kt:269-287 | without a needed cursor the colour snaps to Transparent; with one it blinks in the cursor colour, or holds that colour when blinking is disabled |
| TextFields.CursorState.constructor | ui/ui-foundation/src/main/java/androidx/ui/foundation/TextField.kt:320-323 | a new cursor state is unfocused |
| TextFields.TextFieldState.constructor | ui/ui-foundation/src/main/java/androidx/ui/foundation/TextField.kt:249 | the remembered model starts as the empty value with a collapsed selection at 0 and no composition |
| TextFields.TextFieldState.CursorNeeded | ui/ui-foundation/src/main/java/androidx/ui/foundation/TextField.kt:267 | a cursor is needed exactly when the field is focused and the selection of the remembered model is collapsed; never while unfocused |
| TextFields.TextFieldState.Compose | ui/ui-foundation/src/main/java/androidx/ui/foundation/TextField.kt:249-298 | the new model is the synchronised one; the colour the cursor effect sets is `CursorAnimationFor(CursorNeeded(), …)`: blinking in (or holding) the cursor colour when a cursor is needed, Transparent otherwise; the cursor modifier is attached exactly when focused with a collapsed selection |
| TextFields.TextFieldState.OnValueChange | ui/ui-foundation/src/main/java/androidx/ui/foundation/TextField.kt:299-302 | every edit is stored and forwarded unchanged |
| TextFields.TextFieldState.OnFocusChange | ui/ui-foundation/src/main/java/androidx/ui/foundation/TextField.kt:306-309 | the focus is recorded in the cursor state and forwarded; the model is untouched |
| TextFields.LegacyTextFieldState.constructor | ui/ui-foundation/src/main/java/androidx/ui/foundation/TextField.kt:129 | the deprecated field's model starts as the empty value |
| TextFields.LegacyTextFieldState.Compose | ui/ui-foundation/src/main/java/androidx/ui/foundation/TextField.kt:129-155 | the new model is the legacy-synchronised one, and that model is what is passed on to the current `TextField` |
| TextFields.LegacyTextFieldState.OnValueChangeWrapper | ui/ui-foundation/src/main/java/androidx/ui/foundation/TextField.kt:141-152 | the edit is always stored; it is forwarded, as text and selection, exactly when its text or selection differs from the previous model |
| WatchFaceConfig.HasNonBackgroundComplication | wear/wear-watchface-editor/samples/src/main/java/androidx/wear/watchface/editor/sample/WatchFaceConfigActivity.kt:175-177 | true only when there is a complication; always true with two or more; without a background complication, true exactly when there is one |
| WatchFaceConfig.NonBackgroundComplicationIff | wear/wear-watchface-editor/samples/src/main/java/androidx/wear/watchface/editor/sample/WatchFaceConfigActivity.kt:171-177 | for a session with distinct complication ids that include the background one, the count comparison holds exactly when some complication is not the background complication |
| WatchFaceConfig.TopLevelOptionCount | wear/wear-watchface-editor/samples/src/main/java/androidx/wear/watchface/editor/sample/WatchFaceConfigActivity.kt:170-180 | the count is the settings plus at most two; it equals the settings exactly when there is no complication and no background complication, and the settings plus two exactly when there is a background complication and at least two complications |
| WatchFaceConfig.InitAction | wear/wear-watchface-editor/samples/src/main/java/androidx/wear/watchface/editor/sample/WatchFaceConfigActivity.kt:170-206 | no call exactly when there are no settings and no complications; the config fragment exactly when there is more than one top-level option; the provider chooser only for a lone complication with no settings, opened on that complication's id; complication selection only with several complications and neither settings nor a background complication; the style fragment only for one setting and nothing else, opened with that setting's id, the schema and the style |
| WatchFaceConfig.SingleOptionOpensDirectly | wear/wear-watchface-editor/samples/src/main/java/androidx/wear/watchface/editor/sample/WatchFaceConfigActivity.kt:170-206 | for a session whose background complication is among its complications, no option means no call, and a single option opens its own screen and not the config fragment |
| WatchFaceConfig.WatchFaceConfigActivity.constructor | wear/wear-watchface-editor/samples/src/main/java/androidx/wear/watchface/editor/sample/WatchFaceConfigActivity.kt:72-77 | a new activity has no session and no listener, and has made no calls |
| WatchFaceConfig.WatchFaceConfigActivity.Init | wear/wear-watchface-editor/samples/src/main/java/androidx/wear/watchface/editor/sample/WatchFaceConfigActivity.kt:152-207 | the session is stored and the listener registered; the option count is built step by step; the controller-call log grows by the dispatch decision, which is at most one call |
| WatchFaceConfig.WatchFaceConfigActivity.OnBackStackChanged | wear/wear-watchface-editor/samples/src/main/java/androidx/wear/watchface/editor/sample/WatchFaceConfigActivity.kt:161-168 | an empty back stack finishes the activity; any other count refocuses the current fragment; nothing else changes |
| ComposableUtils.TypeReferenceIsComposable | compose/lint/common/src/main/java/androidx/compose/lint/ComposableUtils.kt:235-244 | an annotated resolved type makes the reference composable; otherwise the annotation on the source type reference decides |
| ComposableUtils.ParameterIsComposable | compose/lint/common/src/main/java/androidx/compose/lint/ComposableUtils.kt:112-132 | a compiled parameter is composable exactly when its metadata carries the annotation; a source parameter exactly when its type reference is composable |
| ComposableUtils.VariableIsComposable | compose/lint/common/src/main/java/androidx/compose/lint/ComposableUtils.kt:88-107 | a variable is composable exactly when its lambda or anonymous-function initializer is annotated or its declared type is; one with neither kind of initializer nor a type is not |
| ComposableUtils.NearestAbove | compose/lint/common/src/main/java/androidx/compose/lint/ComposableUtils.kt:188-203 | the containing-declaration and containing-class lookups: the nearest strict ancestor that has the kind, with none of that kind in between |
| ComposableUtils.ContainingDeclaration | compose/lint/common/src/main/java/androidx/compose/lint/ComposableUtils.kt:188 | the nearest strict ancestor that is a declaration, with no declaration in between; none when no ancestor is one |
| ComposableUtils.ContainingClass | compose/lint/common/src/main/java/androidx/compose/lint/ComposableUtils.kt:193 | the nearest strict ancestor that is a class, with no class in between; none when no ancestor is one |
| ComposableUtils.Skipped | compose/lint/common/src/main/java/androidx/compose/lint/ComposableUtils.kt:190-200 | a declaration is looked past exactly when it is a local property, an anonymous class, or its nearest enclosing class is anonymous |
| ComposableUtils.BoundaryFromIsNearest | compose/lint/common/src/main/java/androidx/compose/lint/ComposableUtils.kt:186-207 | `BoundaryFrom`, the loop's continuation: searching from any element's containing declaration ends at the nearest declaration above it that is not skipped, or at none when all are skipped |
| ComposableUtils.Boundary | compose/lint/common/src/main/java/androidx/compose/lint/ComposableUtils.kt:186-207 | the boundary is the nearest declaration above the call that is not a local property, not an anonymous class and not inside an anonymous class; null when there is no such declaration |
| ComposableUtils.BoundaryUElement | compose/lint/common/src/main/java/androidx/compose/lint/ComposableUtils.kt:186-207 | the skipping loop computes that nearest kept declaration |
| ComposableUtils.FirstStop | compose/lint/common/src/main/java/androidx/compose/lint/ComposableUtils.kt:213-227 | the first position where the walk stops at a lambda, a method or the boundary, or the last position; nothing earlier stops |
| ComposableUtils.ParentElements | compose/lint/common/src/main/java/androidx/compose/lint/ComposableUtils.kt:209-229 | the walk is a non-empty prefix of the chain that starts at the call; no element before the last is a lambda, a method or the boundary; the last one is, unless the chain ran out |
| ComposableUtils.ParentUElements | compose/lint/common/src/main/java/androidx/compose/lint/ComposableUtils.kt:209-229 | the appending loop with its breaks yields the chain up to and including the first lambda, method or boundary |
| ComposableUtils.ParentElementsWithinBoundary | compose/lint/common/src/main/java/androidx/compose/lint/ComposableUtils.kt:224-225 | the walk never goes past the boundary |
| ComposableUtils.LambdaIsComposable | compose/lint/common/src/main/java/androidx/compose/lint/ComposableUtils.kt:137-150 | a lambda under a call is composable exactly when the parameter it binds to resolves and is composable; under a variable exactly when the variable is; with any other parent, or none, it is not |
| ComposableUtils.BodyIsComposable | compose/lint/common/src/main/java/androidx/compose/lint/ComposableUtils.kt:166-170 | the visitor's `isComposable` depends only on the walk's last element: true exactly for an annotated method or a composable lambda |
| ComposableUtils.IsInvokedWithinComposable | compose/lint/common/src/main/java/androidx/compose/lint/ComposableUtils.kt:69-71 | the answer is the visitor's `isComposable`, so a true answer means the walk ended at a method or a lambda |
| ComposableUtils.InvokedInComposableBodyAndNotRemembered | compose/lint/common/src/main/java/androidx/compose/lint/ComposableUtils.kt:51-60 | true exactly when the body is composable and no element of the walk, the call itself included, is a runtime `remember` call (calls above the walk are not looked at); so it implies `isInvokedWithinComposable`, and a call that is itself a runtime `remember` is never reported |

## Left out

- The generated proto enum is not visible. It is modelled as its list of declared values plus its UNKNOWN constant. `forNumber` is the first declared value with the number. The number of the proto UNKNOWN is a hypothesis of `ProtoFallback`.
- TextField: cursor drawing (float geometry, density, text layout), the keyframes of the blink animation, colour and style merging, `CoreTextField` itself, and the `layoutResult` field of the cursor state. The blink is recorded only as "blinking in the cursor colour". `blinkingCursorEnabled` is a parameter.
- TextFields.TextFieldState.Compose: the keys of the commit effect are not modelled. The source re-runs the effect only when the cursor colour, the focus or the model changes, not when only `blinkingCursorEnabled` changes, whereas `Compose` returns the animation for the current inputs on every call. The blink restarting on each re-run and the disposal that stops it are not modelled either.
- TextField: the callbacks supplied by the caller are not called. The value that would be passed to each of them is returned instead.
- TextField: any range checks in the constructor of `TextRange` are not part of this model. It lives outside these files.
- WatchFaceConfigActivity: `onCreate`, `onStop`, the `EditorSession` creation, fragment transactions, accessibility events, the `Handler`, and the `ListenableFuture` returned by the provider chooser. These are Android framework calls. The session is reduced to its style settings, background complication id, and complication keys in iteration order.
- ComposableUtils: `resolve()`, annotation lookup, Kotlin metadata, and `getParameterForArgument` are flags on the abstract elements. The class-file branch of the parameter rule is a flag. The value of the runtime's `remember` short name is taken as `"remember"`, because the `Names` file is not part of this model.
- ComposableUtils: the failure paths of the `!!` and `as` casts in the parameter rule (a null type reference, a missing containing method) are not modelled. A source parameter always carries a type reference here.
- ComposableUtils: the lazy caching of the visitor's properties is not modelled. Each property is computed on demand, which gives the same values.
- 32-bit integers: none of the modelled arithmetic can overflow. Option counts are small, and coercing into `[0, length]` only narrows values.
