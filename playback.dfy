/**
  The playback state machine of the story intro, as pure values.

  The component keeps three state cells (current scene index, "typing complete"
  and "exiting"). Around them live the timers it schedules: at most one
  auto-advance timer, armed by an effect that re-runs whenever the scene index or
  the typing flag changes, and any number of exit timers, one per click on the
  activation button, each of which calls the completion callback when it fires.

  Timers are abstract: scheduling returns a fresh handle, clearing forgets it,
  and "the timer with handle h fires" is an event. A handle that is no longer
  pending has been cleared, and its firing changes nothing.
 */
module Playback {
  import opened Wrappers
  import opened Catalog

  /** Delay of the auto-advance timer, in milliseconds. */
  const AutoAdvanceDelayMs: nat := 5000
  /** Delay between activation and the completion callback, in milliseconds. */
  const ExitDelayMs: nat := 1000

  /** A timer handle as returned by the scheduler. */
  type Handle = nat

  /** What can happen to the component from outside. */
  datatype Event =
      /** The typewriter's callback for line `lineIndex` of the scene on screen. */
    | RevealComplete(lineIndex: nat)
      /** The auto-advance timer with this handle fires. */
    | AdvanceTimerFires(handle: Handle)
      /** A click on the activation button. */
    | Activate
      /** The exit timer with this handle fires. */
    | ExitTimerFires(handle: Handle)

  /**
    The component's state cells, the timers it has scheduled and the number of
    times it has called its completion callback.
   */
  datatype State = State(
    currentScene: nat,
    isTypingComplete: bool,
    isExiting: bool,
    /** the auto-advance timer armed by the latest effect run, if any */
    pendingAdvance: Option<Handle>,
    /** the handle the next scheduled timer will get */
    nextHandle: Handle,
    /** exit timers scheduled by activation and not yet fired */
    pendingExits: set<Handle>,
    /** number of activation clicks handled */
    activations: nat,
    /** number of completion callbacks made */
    completions: nat)

  /**
    The state right after mount: scene 0, nothing typed, not exiting, nothing
    scheduled. It satisfies the invariant over every well-formed catalog.
   */
  function Init(): (s: State)
    ensures forall cat :: WellFormed(cat) ==> Inv(cat, s)
    ensures s.pendingAdvance == None && s.pendingExits == {} && s.completions == 0
  {
    State(0, false, false, None, 0, {}, 0, 0)
  }

  /** Every handle handed out so far is below `nextHandle`. */
  predicate HandlesIssued(s: State)
  {
    (s.pendingAdvance.Some? ==> s.pendingAdvance.value < s.nextHandle) &&
    forall h :: h in s.pendingExits ==> h < s.nextHandle
  }

  /** The invariant of every state the component can reach over a well-formed catalog. */
  predicate Inv(cat: seq<Scene>, s: State)
  {
    WellFormed(cat) &&
    s.currentScene < |cat| &&
    HandlesIssued(s) &&
    // an auto-advance timer is armed exactly while typing is complete ...
    (s.pendingAdvance.Some? <==> s.isTypingComplete) &&
    // ... and typing is never complete on the final scene
    (s.isTypingComplete ==> s.currentScene < |cat| - 1) &&
    // exiting is only ever entered on the final scene, by activation
    (s.isExiting ==> s.currentScene == |cat| - 1) &&
    (s.isExiting <==> s.activations > 0) &&
    // every activation either has completed or is still pending
    s.completions + |s.pendingExits| == s.activations
  }

  /**
    The auto-advance effect. It re-runs only when the scene index or the typing
    flag differs from the values it last ran with (`prevScene`, `prevTyping`).
    Re-running first clears the timer of the previous run, then arms a new one
    exactly when typing is complete and the scene is not the last.
   */
  function AdvanceEffect(cat: seq<Scene>, prevScene: nat, prevTyping: bool, s: State): (r: State)
    // no dependency changed: the effect does not run
    ensures prevScene == s.currentScene && prevTyping == s.isTypingComplete ==> r == s
    // it did run: a timer is pending exactly when typing is complete on a non-final scene,
    // and a pending timer is a freshly issued one
    ensures prevScene != s.currentScene || prevTyping != s.isTypingComplete ==>
      (r.pendingAdvance.Some? <==> s.isTypingComplete && s.currentScene < |cat| - 1) &&
      (r.pendingAdvance.Some? ==> r.pendingAdvance.value == s.nextHandle)
    // the state cells and the exit timers are never touched
    ensures r.currentScene == s.currentScene && r.isTypingComplete == s.isTypingComplete &&
            r.isExiting == s.isExiting && r.pendingExits == s.pendingExits &&
            r.activations == s.activations && r.completions == s.completions
    ensures s.nextHandle <= r.nextHandle <= s.nextHandle + 1
  {
    if prevScene == s.currentScene && prevTyping == s.isTypingComplete then s
    else
      var cleared := s.(pendingAdvance := None);
      if s.isTypingComplete && s.currentScene < |cat| - 1 then
        cleared.(pendingAdvance := Some(s.nextHandle), nextHandle := s.nextHandle + 1)
      else
        cleared
  }

  /** The component's reaction to one event. */
  function Step(cat: seq<Scene>, s: State, e: Event): (r: State)
    requires Inv(cat, s)
    ensures Inv(cat, r)
    ensures r.currentScene == s.currentScene ||
            (e.AdvanceTimerFires? && r.currentScene == s.currentScene + 1)
    ensures r.completions == s.completions ||
            (e.ExitTimerFires? && r.completions == s.completions + 1)
    ensures s.nextHandle <= r.nextHandle
  {
    match e
    case RevealComplete(k) =>
      // only the regular-scene typewriter has a per-line callback
      if !IsFinalScene(cat, s.currentScene) && k == |cat[s.currentScene].text| - 1 then
        AdvanceEffect(cat, s.currentScene, s.isTypingComplete, s.(isTypingComplete := true))
      else
        s
    case AdvanceTimerFires(h) =>
      if s.pendingAdvance == Some(h) then
        var fired := s.(pendingAdvance := None, currentScene := s.currentScene + 1, isTypingComplete := false);
        AdvanceEffect(cat, s.currentScene, s.isTypingComplete, fired)
      else
        s
    case Activate =>
      // the button exists only on the final scene, and every click schedules a completion
      if IsFinalScene(cat, s.currentScene) then
        s.(isExiting := true,
           pendingExits := s.pendingExits + {s.nextHandle},
           nextHandle := s.nextHandle + 1,
           activations := s.activations + 1)
      else
        s
    case ExitTimerFires(h) =>
      if h in s.pendingExits then
        s.(pendingExits := s.pendingExits - {h}, completions := s.completions + 1)
      else
        s
  }

  /** The state after a sequence of events, one at a time. */
  function Run(cat: seq<Scene>, s: State, events: seq<Event>): (r: State)
    requires Inv(cat, s)
    ensures Inv(cat, r)
    ensures s.currentScene <= r.currentScene <= s.currentScene + |events|
    ensures s.completions <= r.completions
    ensures s.nextHandle <= r.nextHandle
    decreases |events|
  {
    if events == [] then s else Run(cat, Step(cat, s, events[0]), events[1..])
  }

  // ---------------------------------------------------------------------------
  // Initial state

  /** The component starts on scene 0 with typing incomplete, not exiting and no timer armed. */
  lemma InitialState(cat: seq<Scene>)
    requires WellFormed(cat)
    ensures Inv(cat, Init())
    ensures Init().currentScene == 0 && !Init().isTypingComplete && !Init().isExiting
    ensures Init().pendingAdvance == None && Init().pendingExits == {} && Init().completions == 0
  {
  }

  // ---------------------------------------------------------------------------
  // The auto-advance timer

  /**
    In every reachable state an auto-advance timer is pending exactly when typing
    is complete and the scene is not the last; on the final scene nothing is armed.
   */
  lemma ArmedOnlyWhenTypedAndNotFinal(cat: seq<Scene>, events: seq<Event>)
    requires WellFormed(cat)
    ensures var s := Run(cat, Init(), events);
      (s.pendingAdvance.Some? <==> s.isTypingComplete && s.currentScene < |cat| - 1) &&
      (IsFinalScene(cat, s.currentScene) ==> s.pendingAdvance == None)
  {
    InitialState(cat);
  }

  /**
    When the pending auto-advance timer fires, the scene index goes up by exactly
    one, typing becomes incomplete, exiting is unchanged and no timer is left armed.
   */
  lemma AdvanceTimerAdvances(cat: seq<Scene>, s: State, h: Handle)
    requires Inv(cat, s) && s.pendingAdvance == Some(h)
    ensures var r := Step(cat, s, AdvanceTimerFires(h));
      r.currentScene == s.currentScene + 1 && r.currentScene < |cat| &&
      !r.isTypingComplete && r.isExiting == s.isExiting &&
      r.pendingAdvance == None &&
      r.pendingExits == s.pendingExits && r.completions == s.completions
  {
  }

  /** Firing a handle that is not the pending auto-advance timer (a cleared one) changes nothing. */
  lemma ClearedAdvanceTimerIsInert(cat: seq<Scene>, s: State, h: Handle)
    requires Inv(cat, s) && s.pendingAdvance != Some(h)
    ensures Step(cat, s, AdvanceTimerFires(h)) == s
  {
  }

  /**
    A step that changes the scene index or the typing flag cancels the timer armed
    before it: afterwards that handle is no longer pending, and any timer now
    pending is a freshly scheduled one. There is never more than one.
   */
  lemma StateChangeCancelsTimer(cat: seq<Scene>, s: State, e: Event)
    requires Inv(cat, s)
    ensures var r := Step(cat, s, e);
      (r.currentScene != s.currentScene || r.isTypingComplete != s.isTypingComplete) ==>
        (s.pendingAdvance.Some? ==> r.pendingAdvance != s.pendingAdvance) &&
        (r.pendingAdvance.Some? ==> r.pendingAdvance.value >= s.nextHandle)
  {
  }

  /**
    Once a timer handle has been issued and is not the pending auto-advance timer,
    no later sequence of events makes it pending again, so its firing is inert forever.
   */
  lemma {:induction false} ClearedTimerNeverFires(cat: seq<Scene>, s: State, h: Handle, events: seq<Event>)
    requires Inv(cat, s)
    requires h < s.nextHandle && s.pendingAdvance != Some(h)
    ensures var r := Run(cat, s, events);
      r.pendingAdvance != Some(h) && Step(cat, r, AdvanceTimerFires(h)) == r
    decreases |events|
  {
    if events != [] {
      var t := Step(cat, s, events[0]);
      assert t.pendingAdvance != Some(h) by {
        StateChangeCancelsTimer(cat, s, events[0]);
      }
      ClearedTimerNeverFires(cat, t, h, events[1..]);
    }
  }

  // ---------------------------------------------------------------------------
  // Scene index

  /** From mount, the scene index stays within the catalog and grows by at most one per event. */
  lemma IndexBounds(cat: seq<Scene>, events: seq<Event>)
    requires WellFormed(cat)
    ensures var s := Run(cat, Init(), events);
      s.currentScene < |cat| && s.currentScene <= |events|
  {
    InitialState(cat);
  }

  /** Once the final scene is on screen it stays there, with no auto-advance timer, whatever happens. */
  lemma {:induction false} FinalSceneIsAbsorbing(cat: seq<Scene>, s: State, events: seq<Event>)
    requires Inv(cat, s) && IsFinalScene(cat, s.currentScene)
    ensures var r := Run(cat, s, events);
      IsFinalScene(cat, r.currentScene) && r.pendingAdvance == None && !r.isTypingComplete
    decreases |events|
  {
    if events != [] {
      FinalSceneIsAbsorbing(cat, Step(cat, s, events[0]), events[1..]);
    }
  }

  // ---------------------------------------------------------------------------
  // Typing completion

  /**
    The typewriter callback sets the typing flag exactly for the last line of a
    non-final scene; any other line, and any line of the final scene, changes nothing.
   */
  lemma TypingCompletesOnLastLine(cat: seq<Scene>, s: State, k: nat)
    requires Inv(cat, s)
    ensures var r := Step(cat, s, RevealComplete(k));
      (r.isTypingComplete <==>
         s.isTypingComplete || (!IsFinalScene(cat, s.currentScene) && k == |cat[s.currentScene].text| - 1)) &&
      (IsFinalScene(cat, s.currentScene) || k != |cat[s.currentScene].text| - 1 ==> r == s) &&
      r.currentScene == s.currentScene && r.isExiting == s.isExiting
  {
  }

  /** Completing the typing of a non-final scene arms one fresh auto-advance timer. */
  lemma TypingCompleteArmsTimer(cat: seq<Scene>, s: State)
    requires Inv(cat, s) && !s.isTypingComplete && !IsFinalScene(cat, s.currentScene)
    ensures var r := Step(cat, s, RevealComplete(|cat[s.currentScene].text| - 1));
      r.isTypingComplete && r.pendingAdvance == Some(s.nextHandle) && r.nextHandle == s.nextHandle + 1
  {
  }

  // ---------------------------------------------------------------------------
  // Activation and completion

  /**
    Activation acts only on the final scene: it sets exiting, keeps the scene and
    schedules one more completion. Elsewhere (no button is shown) it changes nothing.
   */
  lemma ActivationSchedulesCompletion(cat: seq<Scene>, s: State)
    requires Inv(cat, s)
    ensures var r := Step(cat, s, Activate);
      if IsFinalScene(cat, s.currentScene) then
        r.isExiting && r.currentScene == s.currentScene &&
        r.pendingExits == s.pendingExits + {s.nextHandle} &&
        |r.pendingExits| == |s.pendingExits| + 1 &&
        r.activations == s.activations + 1 && r.completions == s.completions
      else
        r == s
  {
  }

  /** An exit timer that fires calls the completion callback once; other handles do nothing. */
  lemma ExitTimerCompletes(cat: seq<Scene>, s: State, h: Handle)
    requires Inv(cat, s)
    ensures var r := Step(cat, s, ExitTimerFires(h));
      if h in s.pendingExits then
        r.completions == s.completions + 1 && r.pendingExits == s.pendingExits - {h} &&
        r.currentScene == s.currentScene && r.isExiting &&
        r.isTypingComplete == s.isTypingComplete && r.pendingAdvance == s.pendingAdvance &&
        r.nextHandle == s.nextHandle && r.activations == s.activations
      else
        r == s
  {
  }

  /**
    Completion is never called more often than the button was clicked, and never
    before exiting has begun on the final scene.
   */
  lemma CompletionFollowsActivation(cat: seq<Scene>, events: seq<Event>)
    requires WellFormed(cat)
    ensures var s := Run(cat, Init(), events);
      s.completions <= s.activations &&
      (s.completions > 0 ==> s.isExiting && IsFinalScene(cat, s.currentScene))
  {
    InitialState(cat);
  }

  /**
    Nothing guards against a second click: two clicks on the final scene followed
    by both exit timers call the completion callback twice.
   */
  lemma {:induction false} RepeatedActivationCompletesTwice(cat: seq<Scene>, s: State)
    requires Inv(cat, s) && IsFinalScene(cat, s.currentScene)
    ensures var r := Run(cat, s, [Activate, Activate, ExitTimerFires(s.nextHandle), ExitTimerFires(s.nextHandle + 1)]);
      r.completions == s.completions + 2
  {
    var es := [Activate, Activate, ExitTimerFires(s.nextHandle), ExitTimerFires(s.nextHandle + 1)];
    var s1 := Step(cat, s, es[0]);
    var s2 := Step(cat, s1, es[1]);
    var s3 := Step(cat, s2, es[2]);
    var s4 := Step(cat, s3, es[3]);
    assert s.nextHandle !in s.pendingExits;
    assert s2.pendingExits == s.pendingExits + {s.nextHandle, s.nextHandle + 1};
    assert s4.completions == s.completions + 2;
    assert Run(cat, s, es) == Run(cat, s1, es[1..]);
    assert Run(cat, s1, es[1..]) == Run(cat, s2, es[2..]);
    assert Run(cat, s2, es[2..]) == Run(cat, s3, es[3..]);
    assert Run(cat, s3, es[3..]) == Run(cat, s4, []);
  }

  // ---------------------------------------------------------------------------
  // Whole runs

  /** Running two traces one after the other is running their concatenation. */
  lemma {:induction false} RunAppend(cat: seq<Scene>, s: State, xs: seq<Event>, ys: seq<Event>)
    requires Inv(cat, s)
    ensures Run(cat, s, xs + ys) == Run(cat, Run(cat, s, xs), ys)
    decreases |xs|
  {
    if xs == [] {
      assert xs + ys == ys;
    } else {
      var t := Step(cat, s, xs[0]);
      assert (xs + ys)[0] == xs[0] && (xs + ys)[1..] == xs[1..] + ys;
      assert Run(cat, s, xs + ys) == Run(cat, t, xs[1..] + ys);
      assert Run(cat, s, xs) == Run(cat, t, xs[1..]);
      RunAppend(cat, t, xs[1..], ys);
    }
  }

  /**
    The events of an uninterrupted playback from scene `from` on: each regular
    scene's typewriter reaches its last line, then that scene's auto-advance timer
    (the next handle to be issued) fires.
   */
  function AutoPlay(cat: seq<Scene>, from: nat, h: Handle): seq<Event>
    requires WellFormed(cat) && from < |cat|
    decreases |cat| - from
  {
    if from == |cat| - 1 then []
    else [RevealComplete(|cat[from].text| - 1), AdvanceTimerFires(h)] + AutoPlay(cat, from + 1, h + 1)
  }

  /**
    From any scene whose typing has not completed, auto-play reaches the final
    scene, one scene per armed timer, without touching exit state.
   */
  lemma {:induction false} AutoPlayReachesFinalScene(cat: seq<Scene>, s: State)
    requires Inv(cat, s) && !s.isTypingComplete
    ensures var r := Run(cat, s, AutoPlay(cat, s.currentScene, s.nextHandle));
      IsFinalScene(cat, r.currentScene) && !r.isTypingComplete && r.pendingAdvance == None &&
      r.nextHandle == s.nextHandle + (|cat| - 1 - s.currentScene) &&
      r.isExiting == s.isExiting && r.pendingExits == s.pendingExits &&
      r.activations == s.activations && r.completions == s.completions
    decreases |cat| - s.currentScene
  {
    if s.currentScene < |cat| - 1 {
      var head := [RevealComplete(|cat[s.currentScene].text| - 1), AdvanceTimerFires(s.nextHandle)];
      var t1 := Step(cat, s, head[0]);
      var t2 := Step(cat, t1, head[1]);
      assert t1.pendingAdvance == Some(s.nextHandle);
      assert Run(cat, s, head) == t2 by {
        assert Run(cat, s, head) == Run(cat, t1, head[1..]);
        assert Run(cat, t1, head[1..]) == Run(cat, t2, []);
      }
      RunAppend(cat, s, head, AutoPlay(cat, t2.currentScene, t2.nextHandle));
      AutoPlayReachesFinalScene(cat, t2);
    }
  }

  /**
    For every well-formed catalog (a single scene included), playback from mount
    reaches the final scene by auto-advance alone; there one click and its exit
    timer call the completion callback exactly once.
   */
  lemma {:induction false} PlayToCompletion(cat: seq<Scene>)
    requires WellFormed(cat)
    ensures Inv(cat, Init())
    ensures var s := Run(cat, Init(), AutoPlay(cat, 0, 0) + [Activate, ExitTimerFires(|cat| - 1)]);
      s.currentScene == |cat| - 1 && s.isExiting && s.activations == 1 && s.completions == 1 &&
      s.pendingAdvance == None && s.pendingExits == {}
  {
    InitialState(cat);
    var tail := [Activate, ExitTimerFires(|cat| - 1)];
    var mid := Run(cat, Init(), AutoPlay(cat, 0, 0));
    AutoPlayReachesFinalScene(cat, Init());
    RunAppend(cat, Init(), AutoPlay(cat, 0, 0), tail);
    var t1 := Step(cat, mid, tail[0]);
    var t2 := Step(cat, t1, tail[1]);
    assert t1.pendingExits == {|cat| - 1};
    assert Run(cat, mid, tail) == Run(cat, t1, tail[1..]);
    assert Run(cat, t1, tail[1..]) == Run(cat, t2, []);
  }
}
