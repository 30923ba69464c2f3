# Story intro playback, modelled in Dafny

The story intro shows a fixed sequence of six scenes. Each scene's lines are
typed out by a typewriter widget. When the last line of a regular scene is done,
a 5000 ms timer advances to the next scene. The final scene never auto-advances.
It shows an "AKTIFKAN PROTOKOL" button instead. A click sets the component
exiting and schedules the completion callback 1000 ms later.

The model has four modules:

- `Wrappers` (wrappers.dfy): the `Option` datatype.
- `Catalog` (catalog.dfy): the `Scene` record and the six-scene table
  `Scenes()`. It also defines `WellFormed`, the final-scene test
  `IsFinalScene` used by the layout branch, and `MaxId`.
- `Playback` (playback.dfy): the controller as pure values. `State` holds the
  three state cells, the pending auto-advance timer (an `Option` of a handle),
  the next timer handle, the set of pending exit timers, and counts of clicks
  and completion calls. `Event` holds the four outside events:
  `RevealComplete(lineIndex)`, `AdvanceTimerFires(handle)`, `Activate` and
  `ExitTimerFires(handle)`. `AdvanceEffect` is the effect that clears and
  re-arms the auto-advance timer. `Step` is the reaction to one event and `Run`
  is the reaction to a sequence of events. The properties are lemmas about
  `Step` and `Run`, together with the invariant `Inv` that every reachable
  state keeps.
- `StoryIntroComponent` (story_intro.dfy): the component as a class,
  `StoryIntro`. It has mutable fields and one method per event. Each method is
  proved to move the object exactly as `Step` moves its `Snapshot()`, so every
  lemma about `Step` and `Run` holds of the object.

Timers are abstract. Scheduling hands out a fresh handle from a counter.
Clearing a timer means it is no longer pending. "The timer with handle h fires"
is an event, and it has no effect unless h is pending. That is how
`clearTimeout` guarantees that a cleared timer never runs.

Some behaviour one might expect of such a component is not what the code does, and the model follows the code:

- The component does not validate its catalog. Well-formedness is a property
  proved of the constant table.
- There is no manual-advance trigger and no separate "done" phase. Exiting is a
  flag, and the completion callback is called once per exit timer that fires.
- Completion is not exactly-once. Nothing stops a second click, and every click
  schedules one more call (`RepeatedActivationCompletesTwice`). What the model
  does prove is that calls never outnumber clicks and never happen before
  exiting (`CompletionFollowsActivation`).
- The typewriter callback carries no scene identity, and the code has no guard
  against a late callback from an earlier scene. The model treats each callback
  as coming from the run of the scene on screen. Each scene entry remounts the
  typewriter.

## Model

| member | source | states |
|---|---|---|
| Catalog.Scenes | src/components/story/StoryIntro.tsx:21-116 | The scene table, with its six scenes' ids, locations and lines as written. It is non-empty (six scenes), ids run 1..6 in array order, every scene has at least one line, and no line is empty. |
| Catalog.IdsAscending | src/components/story/StoryIntro.tsx:21-116 | With contiguous ids, array order and id order agree in both directions, and ids are unique. |
| Catalog.MaxId | src/components/story/StoryIntro.tsx:21-116 | The result bounds every scene's id. In a non-empty catalog, some scene has exactly that id. |
| Catalog.MaxIdIsSize | src/components/story/StoryIntro.tsx:21-116 | With ids 1..n, the largest id is n. |
| Catalog.IsFinalScene | src/components/story/StoryIntro.tsx:183 | The final-vs-regular layout test. With ids 1..n, it holds of an index exactly when the scene there has id n. |
| Catalog.FinalSceneHasMaxId | src/components/story/StoryIntro.tsx:183 | The final-scene branch (`index == length - 1`) picks exactly the scene with the largest id, so exactly one scene is terminal. |
| Playback.Init | src/components/story/StoryIntro.tsx:119-121 | The mount state satisfies the invariant over every well-formed catalog, with no auto-advance timer, no exit timer and no completion. |
| Playback.AdvanceEffect | src/components/story/StoryIntro.tsx:123-132 | If neither the index nor the typing flag changed, the effect does not run and the state is unchanged. If it runs, a timer is pending afterwards exactly when typing is complete on a non-final scene, and that timer is a freshly issued handle. The state cells and exit timers are never touched, and at most one handle is issued. |
| Playback.Step | src/components/story/StoryIntro.tsx:123-139 | Every event preserves the invariant: the index stays in bounds, a timer is armed iff typing is complete, typing is never complete on the final scene, exiting only happens on the final scene, and completions plus pending exits equal clicks. The index changes only when the advance timer fires, and then by exactly +1. Completions change only when an exit timer fires, and then by +1. |
| Playback.Run | src/components/story/StoryIntro.tsx:119-139 | Any sequence of events keeps the invariant. The index never decreases and grows by at most the number of events. Completions never decrease. |
| Playback.InitialState | src/components/story/StoryIntro.tsx:119-121 | The initial state satisfies the invariant. It has scene 0, typing incomplete, not exiting, no timer armed and no completion scheduled. |
| Playback.ArmedOnlyWhenTypedAndNotFinal | src/components/story/StoryIntro.tsx:124-130 | In every state reachable from mount, an auto-advance timer is pending iff typing is complete and the scene is not the last. On the final scene nothing is armed. |
| Playback.AdvanceTimerAdvances | src/components/story/StoryIntro.tsx:126-128 | When the pending timer fires, the index goes up by exactly 1 (and stays in bounds), typing becomes incomplete, exiting is unchanged, no timer is left armed and exit state is untouched. |
| Playback.ClearedAdvanceTimerIsInert | src/components/story/StoryIntro.tsx:131 | If a handle is not the pending timer, its firing leaves the state unchanged. |
| Playback.StateChangeCancelsTimer | src/components/story/StoryIntro.tsx:123-132 | Any step that changes the index or the typing flag stops the previously armed handle from being pending. Any timer pending afterwards has a handle issued in that step. |
| Playback.ClearedTimerNeverFires | src/components/story/StoryIntro.tsx:131-132 | An issued handle that is not pending never becomes pending again under any later sequence of events, so its firing is inert forever. |
| Playback.IndexBounds | src/components/story/StoryIntro.tsx:125 | From mount, `currentScene` is always a valid index into the table and is at most the number of events seen. |
| Playback.FinalSceneIsAbsorbing | src/components/story/StoryIntro.tsx:125 | Once on the final scene, every later state is on the final scene with typing incomplete and no auto-advance timer. |
| Playback.TypingCompletesOnLastLine | src/components/story/StoryIntro.tsx:193-251 | After a typewriter callback for line k, typing is complete iff it already was, or the scene is not final and k is its last line index. Any other line, and any callback on the final scene, leaves the state unchanged. Scene and exiting never change. |
| Playback.TypingCompleteArmsTimer | src/components/story/StoryIntro.tsx:124-130 | When the last line of a non-final scene completes, the typing flag becomes true and one fresh auto-advance timer is armed. |
| Playback.ActivationSchedulesCompletion | src/components/story/StoryIntro.tsx:134-139 | A click on the final scene sets exiting, keeps the scene and adds exactly one new pending exit timer. Completions are not yet changed. On any other scene a click changes nothing. |
| Playback.ExitTimerCompletes | src/components/story/StoryIntro.tsx:136-138 | A pending exit timer firing calls completion once and removes itself, leaving the scene, typing flag, auto-advance timer, handle counter and click count unchanged. Any other handle does nothing. |
| Playback.CompletionFollowsActivation | src/components/story/StoryIntro.tsx:134-139 | In every reachable state, completion calls never exceed clicks. A completion implies exiting on the final scene. |
| Playback.RepeatedActivationCompletesTwice | src/components/story/StoryIntro.tsx:134-139 | The handler has no guard: two clicks on the final scene, followed by both exit timers, call completion twice. |
| Playback.AutoPlayReachesFinalScene | src/components/story/StoryIntro.tsx:123-132 | From any scene whose typing is incomplete, auto-play reaches the final scene with no timer armed, using one timer per scene. Exit state is not touched. Auto-play means each scene's last line completing, then that scene's timer firing. |
| Playback.PlayToCompletion | src/components/story/StoryIntro.tsx:119-139 | For every well-formed catalog, including a one-scene catalog, auto-play from mount reaches the final scene. One click and its exit timer then give exactly one completion. |
| StoryIntroComponent.StoryPlaysToCompletion | src/components/story/StoryIntro.tsx:21-139 | Over the story's own six scenes, auto-play ends on scene index 5. One click then gives one completion, with nothing left pending. |
| StoryIntroComponent.StoryIntro.constructor | src/components/story/StoryIntro.tsx:119-121 | Mounting starts at scene 0 with typing incomplete and not exiting. It closes over the six-scene table and satisfies the invariant. |
| StoryIntroComponent.StoryIntro.RunAdvanceEffect | src/components/story/StoryIntro.tsx:123-132 | If the index or typing flag changed, the effect clears the armed timer, then arms a fresh one only when typing is complete on a non-final scene. If neither changed, the state is untouched. |
| StoryIntroComponent.StoryIntro.RevealComplete | src/components/story/StoryIntro.tsx:243-251 | The new state is `Step` of the old. Typing is complete iff it was, or a non-final scene's last line was reported. Scene and exiting are unchanged. |
| StoryIntroComponent.StoryIntro.AdvanceTimerFires | src/components/story/StoryIntro.tsx:126-128 | The new state is `Step` of the old. The pending handle advances one scene, resets typing and leaves nothing armed. Any other handle leaves the state unchanged. Exiting is unchanged. |
| StoryIntroComponent.StoryIntro.Activate | src/components/story/StoryIntro.tsx:134-139 | The new state is `Step` of the old. On the final scene it sets exiting and adds one exit timer without completing anything. Elsewhere it changes nothing. The scene never changes. |
| StoryIntroComponent.StoryIntro.ExitTimerFires | src/components/story/StoryIntro.tsx:136-138 | The new state is `Step` of the old. Completions go up by one exactly when the handle was pending, and never exceed clicks. |
| StoryIntroComponent.StoryIntro.CurrentSceneData | src/components/story/StoryIntro.tsx:165-178 | The scene lookup is in bounds. It returns a scene of the table whose id is `currentScene + 1` and which has text. |
| StoryIntroComponent.StoryIntro.ShowsActivationButton | src/components/story/StoryIntro.tsx:183 | The final-scene layout is chosen iff the index is the last one. When it is, no auto-advance timer is armed and typing is incomplete. Otherwise the component is not exiting. |

## Left out

- Rendering and animation (layout, motion and presence animations, CSS, corner decorations, the button's 4 s fade-in): they have no control-flow content.
- Typewriter internals (50 ms per character, cursor, 1000 ms pauses): the typewriter is a foreign widget. Only its "line k finished" callback is modelled, as the `RevealComplete` event.
- Wall-clock time: timers are schedule, clear and fire events over handles. The delays are recorded as the constants `AutoAdvanceDelayMs` and `ExitDelayMs` and play no part in the proofs.
- Asset URLs: each image is kept as its stock-photo id (`Asset`), not as a URL string. The character animation objects are dropped. Both are pass-through data that the playback logic never inspects.
- React scheduling: the two state setters in the advance-timer callback are taken as one batched update, so the effect runs once. Unbatched updates could arm and immediately clear an extra timer in between; the resulting state is the same apart from handle numbering.
- Remounting and closure capture: each scene entry is taken to start a new typewriter run whose callbacks refer to the scene on screen. Late callbacks from a superseded run are not modelled.
- Unmounting: the effect's cleanup on unmount, and the exit timers surviving unmount, are not modelled.
