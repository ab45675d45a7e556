/**
 * The auto-play timer shared by the stage and step navigators: while
 * playing, each interval tick advances one frame, and a tick on the last
 * frame stops playing without moving.
 */
module AutoPlay {

  /** The navigator's state: the frame shown and whether the timer runs. */
  datatype Playback = Playback(index: nat, playing: bool)

  /**
   * The interval callback on frames `0..last`: advance below the last
   * frame, otherwise stop playing and stay.
   */
  function Tick(p: Playback, last: nat): (r: Playback)
    ensures p.index <= last ==> r.index <= last
    ensures p.index < last ==> r == Playback(p.index + 1, p.playing)
    ensures p.index >= last ==> r == Playback(p.index, false)
  {
    if p.index < last then Playback(p.index + 1, p.playing) else Playback(p.index, false)
  }

  /** `n` intervals elapse; the interval is cleared once playing stops. */
  function Run(p: Playback, last: nat, n: nat): Playback
    decreases n
  {
    if n == 0 || !p.playing then p else Run(Tick(p, last), last, n - 1)
  }

  /**
   * Started from frame `i`, `n` ticks reach frame `i + n` while it is not
   * past the last one; afterwards the navigator rests on the last frame
   * with the timer stopped.
   */
  lemma {:induction false} RunFrom(i: nat, last: nat, n: nat)
    requires i <= last
    decreases n
    ensures Run(Playback(i, true), last, n)
         == if i + n <= last then Playback(i + n, true) else Playback(last, false)
  {
    if n > 0 {
      if i < last {
        RunFrom(i + 1, last, n - 1);
      } else {
        assert Run(Playback(i, true), last, n) == Run(Playback(i, false), last, n - 1);
      }
    }
  }

  /** However many ticks elapse, the frame stays within `0..last`. */
  lemma {:induction false} RunStaysInRange(p: Playback, last: nat, n: nat)
    requires p.index <= last
    ensures Run(p, last, n).index <= last
    ensures Run(p, last, n).index >= p.index
    decreases n
  {
    if n > 0 && p.playing {
      RunStaysInRange(Tick(p, last), last, n - 1);
    }
  }
}
