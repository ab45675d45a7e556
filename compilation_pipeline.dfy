/**
 * The compilation-pipeline navigator: five stages from source text to the
 * linked executable, with previous/next buttons, stage buttons, reset,
 * play/pause and a timer that advances one stage per interval.
 */
module CompilationPipeline {
  import opened Interaction
  import opened AutoPlay

  /** The stage ids in pipeline order. */
  const StageIds: seq<string> := ["source", "preprocessor", "compiler", "assembler", "linker"]

  /** `stages.length - 1`. */
  const LastStage: nat := |StageIds| - 1

  class Pipeline {
    var currentStage: nat
    var isPlaying: bool
    var latch: Latch

    /** The stage shown is one of the five. */
    ghost predicate Valid()
      reads this
    {
      currentStage <= LastStage && latch.Valid()
    }

    function State(): Playback
      reads this
    {
      Playback(currentStage, isPlaying)
    }

    /** Mounted on the first stage, paused. */
    constructor(hasCallback: bool)
      ensures Valid()
      ensures currentStage == 0 && !isPlaying && latch == Fresh(hasCallback)
    {
      currentStage := 0;
      isPlaying := false;
      latch := Fresh(hasCallback);
    }

    /** A stage button: go straight to stage `index` of the rendered list. */
    method GoToStage(index: nat)
      requires Valid() && index < |StageIds|
      modifies this
      ensures Valid()
      ensures currentStage == index && isPlaying == old(isPlaying) && latch == old(latch).Fire()
    {
      currentStage := index;
      latch := latch.Fire();
    }

    /**
     * The next button does what one timer tick does; it counts as an
     * interaction only when it moves.
     */
    method NextStage()
      requires Valid()
      modifies this
      ensures Valid()
      ensures State() == Tick(old(State()), LastStage)
      ensures latch == if old(currentStage) < LastStage then old(latch).Fire() else old(latch)
    {
      if currentStage < LastStage {
        currentStage := currentStage + 1;
        latch := latch.Fire();
      } else {
        isPlaying := false;
      }
    }

    /** The previous button: one stage back, nothing at the first stage. */
    method PrevStage()
      requires Valid()
      modifies this
      ensures Valid()
      ensures old(currentStage) > 0 ==> currentStage == old(currentStage) - 1 && latch == old(latch).Fire()
      ensures old(currentStage) == 0 ==> currentStage == 0 && latch == old(latch)
      ensures isPlaying == old(isPlaying)
    {
      if currentStage > 0 {
        currentStage := currentStage - 1;
        latch := latch.Fire();
      }
    }

    /** Back to the first stage, paused. */
    method Reset()
      requires Valid()
      modifies this
      ensures Valid()
      ensures currentStage == 0 && !isPlaying && latch == old(latch).Fire()
    {
      currentStage := 0;
      isPlaying := false;
      latch := latch.Fire();
    }

    /** Play/pause. */
    method TogglePlay()
      requires Valid()
      modifies this
      ensures Valid()
      ensures isPlaying == !old(isPlaying) && currentStage == old(currentStage) && latch == old(latch).Fire()
    {
      isPlaying := !isPlaying;
      latch := latch.Fire();
    }

    /** One interval of the timer, which runs only while playing. */
    method OnTimer()
      requires Valid() && isPlaying
      modifies this
      ensures Valid()
      ensures State() == Tick(old(State()), LastStage) && latch == old(latch)
    {
      if currentStage < LastStage {
        currentStage := currentStage + 1;
      } else {
        isPlaying := false;
      }
    }
  }

  /**
   * Pressing play on stage `i` walks the pipeline to the linker stage and
   * stops there: after `n` intervals the stage is `i + n`, or the last
   * stage with the timer stopped once `i + n` passes it.
   */
  lemma AutoPlayToLinker(i: nat, n: nat)
    requires i <= LastStage
    ensures Run(Playback(i, true), LastStage, n)
         == if i + n <= 4 then Playback(i + n, true) else Playback(4, false)
    ensures i + n > LastStage ==> StageIds[Run(Playback(i, true), LastStage, n).index] == "linker"
  {
    RunFrom(i, LastStage, n);
  }
}
