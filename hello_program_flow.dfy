/**
 * The hello-program walkthrough: six steps from typing the command in the
 * shell to the process exiting, with step buttons, reset, play/pause and
 * a timer that advances one step per interval. Its explanation lines are
 * rendered by `Markdown.ParseMarkdownBold`.
 */
module HelloProgramFlow {
  import opened Interaction
  import opened AutoPlay

  /** The step ids in order. */
  const StepIds: seq<string> := ["shell", "load", "execute", "printf", "output", "exit"]

  /** `steps.length - 1`. */
  const LastStep: nat := |StepIds| - 1

  class ProgramFlow {
    var currentStep: nat
    var isPlaying: bool
    var latch: Latch

    /** The step shown is one of the six. */
    ghost predicate Valid()
      reads this
    {
      currentStep <= LastStep && latch.Valid()
    }

    function State(): Playback
      reads this
    {
      Playback(currentStep, isPlaying)
    }

    /** Mounted on the first step, paused. */
    constructor(hasCallback: bool)
      ensures Valid()
      ensures currentStep == 0 && !isPlaying && latch == Fresh(hasCallback)
    {
      currentStep := 0;
      isPlaying := false;
      latch := Fresh(hasCallback);
    }

    /** A step button: go straight to step `index` of the rendered list. */
    method GoToStep(index: nat)
      requires Valid() && index < |StepIds|
      modifies this
      ensures Valid()
      ensures currentStep == index && isPlaying == old(isPlaying) && latch == old(latch).Fire()
    {
      currentStep := index;
      latch := latch.Fire();
    }

    /** Back to the first step, paused. */
    method Reset()
      requires Valid()
      modifies this
      ensures Valid()
      ensures currentStep == 0 && !isPlaying && latch == old(latch).Fire()
    {
      currentStep := 0;
      isPlaying := false;
      latch := latch.Fire();
    }

    /** The play/pause button. */
    method TogglePlay()
      requires Valid()
      modifies this
      ensures Valid()
      ensures isPlaying == !old(isPlaying) && currentStep == old(currentStep) && latch == old(latch).Fire()
    {
      isPlaying := !isPlaying;
      latch := latch.Fire();
    }

    /** One interval of the timer, which runs only while playing. */
    method OnTimer()
      requires Valid() && isPlaying
      modifies this
      ensures Valid()
      ensures State() == Tick(old(State()), LastStep) && latch == old(latch)
    {
      if currentStep < LastStep {
        currentStep := currentStep + 1;
      } else {
        isPlaying := false;
      }
    }
  }

  /**
   * Pressing play on step `i` walks to the exit step and stops there:
   * after `n` intervals the step is `i + n`, or the exit step with the
   * timer stopped once `i + n` passes it.
   */
  lemma AutoPlayToExit(i: nat, n: nat)
    requires i <= LastStep
    ensures Run(Playback(i, true), LastStep, n)
         == if i + n <= 5 then Playback(i + n, true) else Playback(5, false)
    ensures i + n > LastStep ==> StepIds[Run(Playback(i, true), LastStep, n).index] == "exit"
  {
    RunFrom(i, LastStep, n);
  }
}
