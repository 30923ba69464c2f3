/**
  The story intro component as an object: its three state cells, the auto-advance
  timer its effect keeps, and the exit timers its activation handler schedules.
  Each event handler is proved to move the object exactly as `Playback.Step`
  moves the abstract state, so every property proved there holds of the object.
 */
module StoryIntroComponent {
  import opened Wrappers
  import opened Catalog
  import opened Playback

  class StoryIntro {
    /** the scene table the component closes over */
    const cat: seq<Scene>

    var currentScene: nat
    var isTypingComplete: bool
    var isExiting: bool

    /** handle of the timer armed by the auto-advance effect, if any */
    var pendingAdvance: Option<Handle>
    /** handle the scheduler gives to the next timer */
    var nextHandle: Handle
    /** exit timers scheduled by activation and not yet fired */
    var pendingExits: set<Handle>
    /** clicks on the activation button handled so far */
    var activations: nat
    /** calls made to the completion callback so far */
    var completions: nat

    /** The object's state as an abstract value. */
    function Snapshot(): State
      reads this
    {
      State(currentScene, isTypingComplete, isExiting, pendingAdvance, nextHandle,
            pendingExits, activations, completions)
    }

    predicate Valid()
      reads this
    {
      Inv(cat, Snapshot())
    }

    /** Mounting: the three cells take their initial values and nothing is scheduled. */
    constructor ()
      ensures Valid() && cat == Scenes()
      ensures Snapshot() == Init()
      ensures currentScene == 0 && !isTypingComplete && !isExiting
    {
      cat := Scenes();
      currentScene, isTypingComplete, isExiting := 0, false, false;
      pendingAdvance, nextHandle := None, 0;
      pendingExits, activations, completions := {}, 0, 0;
    }

    /**
      Re-runs the auto-advance effect if the scene index or the typing flag
      differ from the values it last ran with: clear the armed timer, then arm a
      new one when typing is complete and the scene is not the last.
     */
    method RunAdvanceEffect(prevScene: nat, prevTyping: bool)
      modifies this
      ensures Snapshot() == AdvanceEffect(cat, prevScene, prevTyping, old(Snapshot()))
    {
      if prevScene != currentScene || prevTyping != isTypingComplete {
        pendingAdvance := None;
        if isTypingComplete && currentScene < |cat| - 1 {
          pendingAdvance := Some(nextHandle);
          nextHandle := nextHandle + 1;
        }
      }
    }

    /** The typewriter of the scene on screen reports that line `lineIndex` has been typed. */
    method RevealComplete(lineIndex: nat)
      requires Valid()
      modifies this
      ensures Valid()
      ensures Snapshot() == Step(cat, old(Snapshot()), Event.RevealComplete(lineIndex))
      ensures isTypingComplete <==>
        old(isTypingComplete) || (currentScene < |cat| - 1 && lineIndex == |cat[currentScene].text| - 1)
      ensures currentScene == old(currentScene) && isExiting == old(isExiting)
    {
      // the final scene's typewriter has no per-line callback
      if currentScene != |cat| - 1 {
        if lineIndex == |cat[currentScene].text| - 1 {
          var prevScene, prevTyping := currentScene, isTypingComplete;
          isTypingComplete := true;
          RunAdvanceEffect(prevScene, prevTyping);
        }
      }
    }

    /** The timer with handle `h` fires; only the armed auto-advance timer has an effect. */
    method AdvanceTimerFires(h: Handle)
      requires Valid()
      modifies this
      ensures Valid()
      ensures Snapshot() == Step(cat, old(Snapshot()), Event.AdvanceTimerFires(h))
      ensures old(pendingAdvance) == Some(h) ==>
        currentScene == old(currentScene) + 1 && !isTypingComplete && pendingAdvance == None
      ensures old(pendingAdvance) != Some(h) ==> Snapshot() == old(Snapshot())
      ensures isExiting == old(isExiting)
    {
      if pendingAdvance == Some(h) {
        pendingAdvance := None;
        var prevScene, prevTyping := currentScene, isTypingComplete;
        currentScene := currentScene + 1;
        isTypingComplete := false;
        RunAdvanceEffect(prevScene, prevTyping);
      }
    }

    /** A click on the activation button, which is only shown on the final scene. */
    method Activate()
      requires Valid()
      modifies this
      ensures Valid()
      ensures Snapshot() == Step(cat, old(Snapshot()), Event.Activate)
      ensures old(currentScene) == |cat| - 1 ==>
        isExiting && pendingExits == old(pendingExits) + {old(nextHandle)} &&
        completions == old(completions)
      ensures old(currentScene) != |cat| - 1 ==> Snapshot() == old(Snapshot())
      ensures currentScene == old(currentScene)
    {
      if currentScene == |cat| - 1 {
        isExiting := true;
        pendingExits := pendingExits + {nextHandle};
        nextHandle := nextHandle + 1;
        activations := activations + 1;
      }
    }

    /** The exit timer with handle `h` fires and, if it is pending, calls the completion callback. */
    method ExitTimerFires(h: Handle)
      requires Valid()
      modifies this
      ensures Valid()
      ensures Snapshot() == Step(cat, old(Snapshot()), Event.ExitTimerFires(h))
      ensures completions == old(completions) + (if h in old(pendingExits) then 1 else 0)
      ensures completions <= activations
    {
      if h in pendingExits {
        pendingExits := pendingExits - {h};
        completions := completions + 1;
      }
    }

    /** The scene on screen; the lookup is always in bounds. */
    method CurrentSceneData() returns (sc: Scene)
      requires Valid()
      ensures sc in cat && sc.id == currentScene + 1 && HasText(sc)
    {
      sc := cat[currentScene];
    }

    /** Whether the final-scene layout, with its activation button, is shown. */
    method ShowsActivationButton() returns (b: bool)
      requires Valid()
      ensures b <==> IsFinalScene(cat, currentScene)
      ensures b ==> pendingAdvance == None && !isTypingComplete
      ensures !b ==> !isExiting
    {
      b := currentScene == |cat| - 1;
    }
  }

  /**
    Over the story's own six scenes, letting every regular scene type out and
    auto-advance reaches the final scene, and one click then leads to exactly
    one call of the completion callback.
   */
  lemma StoryPlaysToCompletion()
    ensures Inv(Scenes(), Init())
    ensures var s := Run(Scenes(), Init(), AutoPlay(Scenes(), 0, 0) + [Activate, ExitTimerFires(5)]);
      s.currentScene == 5 && s.isExiting && s.activations == 1 && s.completions == 1 &&
      s.pendingAdvance == None && s.pendingExits == {}
  {
    PlayToCompletion(Scenes());
  }
}
