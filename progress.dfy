/**
 * Per-chapter learning progress, kept as a dictionary from chapter id to a
 * record, with one write operation that clamps the value, completes a
 * chapter at 100 and unlocks the chapter after it in catalog order.
 *
 * The tracker uses the catalog only through its ids in order (`chapter.id`,
 * `findIndex` and `length`), so the definitions below take that order as
 * `order`; the tracker itself always holds `Chapters.CatalogIds()`.
 */
module Progress {
  import opened Wrappers
  import opened Seqs
  import Chapters
  import opened Rounding

  /** One record of the progress dictionary; `lastAccessed` is an ISO timestamp when set. */
  datatype ChapterProgress = ChapterProgress(
    chapterId: string,
    progress: int,
    isUnlocked: bool,
    isCompleted: bool,
    lastAccessed: Option<string>)

  type ProgressMap = map<string, ChapterProgress>

  /** The record both `getChapterProgress` and `updateChapterProgress` use for a missing id. */
  function Placeholder(id: string): ChapterProgress
  {
    ChapterProgress(id, 0, false, false, None)
  }

  /** The record `getDefaultProgress` gives a chapter: unlocked only when it is the first. */
  function DefaultRecord(id: string, first: bool): ChapterProgress
  {
    ChapterProgress(id, 0, first, false, None)
  }

  /** The test `x => x === id`. */
  function Is(id: string): string -> bool
  {
    (x: string) => x == id
  }

  /** `chapters.findIndex(ch => ch.id === id)`: the position of `id`, or -1. */
  function Position(order: seq<string>, id: string): (i: int)
    ensures -1 <= i < |order|
    ensures i == -1 <==> id !in order
    ensures 0 <= i ==> order[i] == id
  {
    FindIndex(order, Is(id))
  }

  /** With distinct ids, the position of the id at `i` is `i`. */
  lemma PositionOf(order: seq<string>, i: nat)
    requires NoDuplicates(order) && i < |order|
    ensures Position(order, order[i]) == i
  {
    var k := Position(order, order[i]);
    assert order[k] == order[i];
  }

  /** The dictionary after the `forEach` of `getDefaultProgress` has visited the first `n` ids. */
  function DefaultPrefix(order: seq<string>, n: nat): ProgressMap
    requires n <= |order|
  {
    if n == 0 then map[]
    else DefaultPrefix(order, n - 1)[order[n - 1] := DefaultRecord(order[n - 1], n - 1 == 0)]
  }

  /** `getDefaultProgress()`. */
  function DefaultProgress(order: seq<string>): ProgressMap
  {
    DefaultPrefix(order, |order|)
  }

  lemma {:induction false} DefaultPrefixShape(order: seq<string>, n: nat)
    requires NoDuplicates(order) && n <= |order|
    ensures forall id :: id in DefaultPrefix(order, n) <==> id in order[..n]
    ensures forall i :: 0 <= i < n ==> DefaultPrefix(order, n)[order[i]] == DefaultRecord(order[i], i == 0)
  {
    if n > 0 {
      DefaultPrefixShape(order, n - 1);
      assert order[..n] == order[..n - 1] + [order[n - 1]];
      forall i | 0 <= i < n - 1
        ensures DefaultPrefix(order, n)[order[i]] == DefaultRecord(order[i], i == 0)
      {
        assert order[i] != order[n - 1];
      }
    }
  }

  /**
   * The default map has exactly one record per catalog id, at progress 0,
   * incomplete, never accessed, and unlocked only for the first chapter.
   */
  lemma DefaultProgressShape(order: seq<string>)
    requires NoDuplicates(order)
    ensures forall id :: id in DefaultProgress(order) <==> id in order
    ensures forall id :: id in DefaultProgress(order) ==>
      var r := DefaultProgress(order)[id];
      r.chapterId == id && r.progress == 0 && !r.isCompleted && r.lastAccessed == None
      && |order| > 0 && (r.isUnlocked <==> id == order[0])
  {
    DefaultPrefixShape(order, |order|);
    assert order[..|order|] == order;
    forall id | id in DefaultProgress(order)
      ensures var r := DefaultProgress(order)[id];
        r.chapterId == id && r.progress == 0 && !r.isCompleted && r.lastAccessed == None
        && |order| > 0 && (r.isUnlocked <==> id == order[0])
    {
      var i :| 0 <= i < |order| && order[i] == id;
      assert DefaultProgress(order)[id] == DefaultRecord(id, i == 0);
      if i != 0 {
        assert order[0] != order[i];
      }
    }
  }

  /** `Math.min(100, Math.max(0, progress))`. */
  function Clamp(p: int): (c: int)
    ensures 0 <= c <= 100
    ensures 0 <= p <= 100 ==> c == p
    ensures p < 0 ==> c == 0
    ensures p > 100 ==> c == 100
  {
    if p < 0 then 0 else if p > 100 then 100 else p
  }

  /**
   * The chapter a completion unlocks (`currentIndex < chapters.length - 1`):
   * the next one in catalog order, the first one for an unknown id (its index
   * is -1), and none for the last chapter.
   */
  function UnlockTarget(order: seq<string>, id: string): (t: Option<string>)
    ensures t.None? <==> |order| == 0 || Position(order, id) == |order| - 1
    ensures id !in order && |order| > 0 ==> t == Some(order[0])
    ensures 0 <= Position(order, id) < |order| - 1 ==> t == Some(order[Position(order, id) + 1])
  {
    var i := Position(order, id);
    if i < |order| - 1 then Some(order[i + 1]) else None
  }

  /** Only the chapter before position `i` unlocks the chapter at `i`. */
  lemma TargetAt(order: seq<string>, id: string, i: nat)
    requires NoDuplicates(order) && 0 < i < |order| && UnlockTarget(order, id) == Some(order[i])
    ensures id == order[i - 1]
  {
    var j := Position(order, id);
    assert order[j + 1] == order[i];
    assert j + 1 == i;
  }

  /** The record of `id` after the clamp and the timestamp, created locked if missing. */
  function Touched(m: ProgressMap, id: string, p: int, now: string): ProgressMap
  {
    var base := if id in m then m else m[id := Placeholder(id)];
    base[id := base[id].(progress := Clamp(p), lastAccessed := Some(now))]
  }

  /**
   * One update, once the chapter it unlocks is known: touch the record of `id`
   * and, at 100 or more, complete it and unlock `target`, creating that record when absent.
   */
  function Step(m: ProgressMap, id: string, p: int, now: string, target: Option<string>): ProgressMap
  {
    var t := Touched(m, id, p, now);
    if p < 100 then t
    else
      var c := t[id := t[id].(isCompleted := true)];
      match target
      case None => c
      case Some(next) =>
        c[next := if next in c then c[next].(isUnlocked := true) else ChapterProgress(next, 0, true, false, None)]
  }

  /** The map `updateChapterProgress(id, p)` saves, given the map it read and the time `now`. */
  function Updated(order: seq<string>, m: ProgressMap, id: string, p: int, now: string): ProgressMap
  {
    Step(m, id, p, now, UnlockTarget(order, id))
  }

  /** `getChapterProgress` on a map: the record, or the locked placeholder. */
  function Lookup(m: ProgressMap, id: string): (r: ChapterProgress)
    ensures id in m ==> r == m[id]
    ensures id !in m ==> r.chapterId == id && r.progress == 0 && !r.isUnlocked && !r.isCompleted
  {
    if id in m then m[id] else Placeholder(id)
  }

  /** The ids whose record is completed (`Object.values(...).filter(p => p.isCompleted)`). */
  function CompletedIds(m: ProgressMap): set<string>
  {
    set id | id in m && m[id].isCompleted
  }

  /** Every record's progress lies in [0, 100]. */
  predicate InRange(m: ProgressMap)
  {
    forall id :: id in m ==> 0 <= m[id].progress <= 100
  }

  /** A chapter other than the first is unlocked only when the chapter before it is completed. */
  predicate Gated(order: seq<string>, m: ProgressMap)
  {
    forall i :: 0 < i < |order| && order[i] in m && m[order[i]].isUnlocked ==>
      order[i - 1] in m && m[order[i - 1]].isCompleted
  }

  /** With the default map only the first chapter is unlocked; unknown ids read as locked. */
  lemma DefaultUnlocked(order: seq<string>, id: string)
    requires NoDuplicates(order) && |order| > 0
    ensures Lookup(DefaultProgress(order), id).isUnlocked <==> id == order[0]
    ensures !Lookup(DefaultProgress(order), id).isCompleted
  {
    DefaultProgressShape(order);
  }

  /**
   * After a step the record of `id` exists and holds the clamped value and the
   * time; it is completed when it was or when the value reached 100, and it
   * keeps its unlock flag unless it is the chapter being unlocked.
   */
  lemma StepRecord(m: ProgressMap, id: string, p: int, now: string, target: Option<string>)
    ensures var r := Step(m, id, p, now, target);
      id in r && r[id].progress == Clamp(p) && 0 <= r[id].progress <= 100 && r[id].lastAccessed == Some(now)
      && r[id].chapterId == Lookup(m, id).chapterId
      && r[id].isCompleted == (Lookup(m, id).isCompleted || p >= 100)
      && (r[id].isUnlocked <==> Lookup(m, id).isUnlocked || (p >= 100 && target == Some(id)))
  {
  }

  /** At 100 or more the target becomes unlocked: its record gains the flag, or is created unlocked at 0. */
  lemma StepUnlocksTarget(m: ProgressMap, id: string, p: int, now: string, next: string)
    requires p >= 100 && next != id
    ensures var r := Step(m, id, p, now, Some(next));
      next in r
      && (next !in m ==> r[next] == ChapterProgress(next, 0, true, false, None))
      && (next in m ==> r[next] == m[next].(isUnlocked := true))
  {
  }

  /**
   * A step adds the records of `id` and (at 100 or more) of the target and no
   * others, and leaves every other record as it was.
   */
  lemma StepFrame(m: ProgressMap, id: string, p: int, now: string, target: Option<string>)
    ensures var r := Step(m, id, p, now, target);
      r.Keys == m.Keys + {id} + (if p >= 100 && target.Some? then {target.value} else {})
      && (forall k :: k in m && k != id && (p < 100 || target != Some(k)) ==> r[k] == m[k])
  {
  }

  /** Below 100 no `isUnlocked` or `isCompleted` flag changes, and a record created for `id` is locked and incomplete. */
  lemma StepBelowHundredKeepsFlags(m: ProgressMap, id: string, p: int, now: string, target: Option<string>)
    requires p < 100
    ensures var r := Step(m, id, p, now, target);
      r.Keys == m.Keys + {id}
      && (forall k :: k in m ==> r[k].isUnlocked == m[k].isUnlocked && r[k].isCompleted == m[k].isCompleted)
      && (id !in m ==> !r[id].isUnlocked && !r[id].isCompleted)
  {
  }

  /** No step revokes a completion or an unlock. */
  lemma StepMonotone(m: ProgressMap, id: string, p: int, now: string, target: Option<string>)
    ensures var r := Step(m, id, p, now, target);
      forall k :: k in m ==> k in r && (m[k].isCompleted ==> r[k].isCompleted) && (m[k].isUnlocked ==> r[k].isUnlocked)
  {
  }

  /** For a fixed timestamp, repeating a step changes nothing more. */
  lemma StepIdempotent(m: ProgressMap, id: string, p: int, now: string, target: Option<string>)
    ensures Step(Step(m, id, p, now, target), id, p, now, target) == Step(m, id, p, now, target)
  {
    var r := Step(m, id, p, now, target);
    var rr := Step(r, id, p, now, target);
    assert rr.Keys == r.Keys;
    forall k | k in r
      ensures rr[k] == r[k]
    {
    }
  }

  /** Steps keep every progress value within [0, 100]. */
  lemma StepInRange(m: ProgressMap, id: string, p: int, now: string, target: Option<string>)
    requires InRange(m)
    ensures InRange(Step(m, id, p, now, target))
  {
  }

  /** The completed ids after a step: those before, plus `id` when the value reached 100. */
  lemma StepCompletedIds(m: ProgressMap, id: string, p: int, now: string, target: Option<string>)
    ensures CompletedIds(Step(m, id, p, now, target)) == CompletedIds(m) + (if p >= 100 then {id} else {})
  {
    var r := Step(m, id, p, now, target);
    forall k | k in CompletedIds(r)
      ensures k in CompletedIds(m) + (if p >= 100 then {id} else {})
    {
    }
    forall k | k in CompletedIds(m) + (if p >= 100 then {id} else {})
      ensures k in CompletedIds(r)
    {
    }
  }

  /** A value of 100 or more completes the chapter and unlocks its successor in the catalog. */
  lemma UpdateUnlocksNext(order: seq<string>, m: ProgressMap, id: string, p: int, now: string)
    requires NoDuplicates(order) && p >= 100 && 0 <= Position(order, id) < |order| - 1
    ensures var r := Updated(order, m, id, p, now);
      var next := order[Position(order, id) + 1];
      id in r && r[id].isCompleted && next in r && r[next].isUnlocked
      && (next !in m ==> r[next] == ChapterProgress(next, 0, true, false, None))
      && (next in m ==> r[next] == m[next].(isUnlocked := true))
  {
    var i := Position(order, id);
    var next := order[i + 1];
    assert next != id by {
      assert order[i] == id;
    }
    StepRecord(m, id, p, now, Some(next));
    StepUnlocksTarget(m, id, p, now, next);
  }

  /** An id outside the catalog, completed, unlocks the first chapter (`findIndex` gives -1). */
  lemma UpdateUnknownUnlocksFirst(order: seq<string>, m: ProgressMap, id: string, p: int, now: string)
    requires p >= 100 && id !in order && |order| > 0
    ensures var r := Updated(order, m, id, p, now);
      id in r && r[id].isCompleted && order[0] in r && r[order[0]].isUnlocked
      && (order[0] in m ==> r[order[0]] == m[order[0]].(isUnlocked := true))
  {
    assert order[0] != id;
    StepRecord(m, id, p, now, Some(order[0]));
    StepUnlocksTarget(m, id, p, now, order[0]);
  }

  /** Completing the last chapter unlocks nothing: every other record is left alone. */
  lemma UpdateLastUnlocksNothing(order: seq<string>, m: ProgressMap, id: string, p: int, now: string)
    requires NoDuplicates(order) && |order| > 0 && id == order[|order| - 1]
    ensures var r := Updated(order, m, id, p, now);
      r.Keys == m.Keys + {id} && forall k :: k in m && k != id ==> r[k] == m[k]
  {
    PositionOf(order, |order| - 1);
    StepFrame(m, id, p, now, None);
  }

  /** Completing and then lowering the value keeps the chapter completed below 100: "completed implies 100" does not hold. */
  lemma CompletionOutlivesProgress(order: seq<string>, m: ProgressMap, id: string, p: int, t1: string, t2: string)
    requires p < 100
    ensures var r := Updated(order, Updated(order, m, id, 100, t1), id, p, t2);
      id in r && r[id].isCompleted && r[id].progress == Clamp(p) && r[id].progress < 100
  {
    var target := UnlockTarget(order, id);
    StepRecord(m, id, 100, t1, target);
    StepRecord(Updated(order, m, id, 100, t1), id, p, t2, target);
  }

  /** The default map is gated and in range. */
  lemma DefaultInvariants(order: seq<string>)
    requires NoDuplicates(order)
    ensures Gated(order, DefaultProgress(order)) && InRange(DefaultProgress(order))
  {
    DefaultProgressShape(order);
    var m := DefaultProgress(order);
    forall i | 0 < i < |order| && order[i] in m
      ensures !m[order[i]].isUnlocked
    {
      assert order[i] != order[0];
    }
  }

  /** Updates keep the gate: a chapter is only ever unlocked by completing the one before it. */
  lemma UpdateGated(order: seq<string>, m: ProgressMap, id: string, p: int, now: string)
    requires NoDuplicates(order) && Gated(order, m)
    ensures Gated(order, Updated(order, m, id, p, now))
  {
    var target := UnlockTarget(order, id);
    var r := Step(m, id, p, now, target);
    StepMonotone(m, id, p, now, target);
    StepRecord(m, id, p, now, target);
    StepFrame(m, id, p, now, target);
    forall i | 0 < i < |order| && order[i] in r && r[order[i]].isUnlocked
      ensures order[i - 1] in r && r[order[i - 1]].isCompleted
    {
      var k := order[i];
      if p >= 100 && target == Some(k) {
        TargetAt(order, id, i);
      } else if k == id {
        assert k in m && m[k].isUnlocked;
      } else {
        assert k in m && r[k] == m[k];
      }
    }
  }

  /** Completing a fresh id outside the catalog raises the completed count: the count is not limited to catalog chapters. */
  lemma UnknownIdCounts(order: seq<string>, m: ProgressMap, id: string, now: string)
    requires id !in order && id !in m
    ensures |CompletedIds(Updated(order, m, id, 100, now))| == |CompletedIds(m)| + 1
  {
    StepCompletedIds(m, id, 100, now, UnlockTarget(order, id));
    assert id !in CompletedIds(m);
  }

  lemma {:induction false} SeqSetCard(s: seq<string>)
    ensures |set x | x in s| <= |s|
  {
    if s != [] {
      SeqSetCard(s[1..]);
      assert (set x | x in s) == (set x | x in s[1..]) + {s[0]};
    }
  }

  lemma SubsetCard<T>(a: set<T>, b: set<T>)
    requires a <= b
    ensures |a| <= |b|
  {
    assert b == a + (b - a);
  }

  /** When only catalog chapters are completed, the overall percentage is at most 100. */
  lemma OverallAtMostHundred(order: seq<string>, m: ProgressMap)
    requires |order| > 0 && forall id :: id in CompletedIds(m) ==> id in order
    ensures RoundPercent(|CompletedIds(m)|, |order|) <= 100
  {
    SubsetCard(CompletedIds(m), set x | x in order);
    SeqSetCard(order);
    RoundPercentBounds(|CompletedIds(m)|, |order|);
  }

  /** The progress store: `stored` is `None` when the storage key is missing, empty or unparseable. */
  class ProgressTracker {
    const order: seq<string>
    var stored: Option<ProgressMap>

    /** The catalog order has distinct ids and at least one chapter. */
    predicate Valid()
      reads this
    {
      NoDuplicates(order) && |order| > 0
    }

    constructor(initial: Option<ProgressMap>)
      ensures order == Chapters.CatalogIds() && stored == initial && Valid()
    {
      order := Chapters.CatalogIds();
      stored := initial;
      Chapters.CatalogIdsShape();
    }

    /** The map `getAllProgress` returns. */
    function AllProgress(): ProgressMap
      reads this
    {
      match stored
      case Some(m) => m
      case None => DefaultProgress(order)
    }

    /** `getDefaultProgress`: fill a fresh dictionary, one chapter at a time. */
    method GetDefaultProgress() returns (m: ProgressMap)
      ensures m == DefaultProgress(order)
    {
      m := map[];
      var i := 0;
      while i < |order|
        invariant 0 <= i <= |order|
        invariant m == DefaultPrefix(order, i)
      {
        m := m[order[i] := DefaultRecord(order[i], i == 0)];
        i := i + 1;
      }
    }

    /** `getAllProgress`: the stored map when present, otherwise the default map; it never fails. */
    method GetAllProgress() returns (m: ProgressMap)
      ensures stored.Some? ==> m == stored.value
      ensures stored.None? ==> m == DefaultProgress(order)
    {
      if stored.Some? {
        m := stored.value;
      } else {
        m := GetDefaultProgress();
      }
    }

    /** `getChapterProgress`: the record, or a locked placeholder; nothing is written. */
    method GetChapterProgress(id: string) returns (r: ChapterProgress)
      ensures r == Lookup(AllProgress(), id)
    {
      var all := GetAllProgress();
      if id in all {
        r := all[id];
      } else {
        r := Placeholder(id);
      }
    }

    /** `updateChapterProgress(id, p)`, with the clock reading `now` passed in. */
    method UpdateChapterProgress(id: string, p: int, now: string)
      modifies this
      ensures stored == Some(Updated(order, old(AllProgress()), id, p, now))
    {
      var all := GetAllProgress();
      ghost var read := all;
      if id !in all {
        all := all[id := Placeholder(id)];
      }
      all := all[id := all[id].(progress := Clamp(p))];
      all := all[id := all[id].(lastAccessed := Some(now))];
      assert all == Touched(read, id, p, now);
      if p >= 100 {
        all := all[id := all[id].(isCompleted := true)];
        var currentIndex := Position(order, id);
        if currentIndex < |order| - 1 {
          var nextId := order[currentIndex + 1];
          if nextId !in all {
            all := all[nextId := ChapterProgress(nextId, 0, true, false, None)];
          } else {
            all := all[nextId := all[nextId].(isUnlocked := true)];
          }
        }
      }
      stored := Some(all);
    }

    /** `isChapterUnlocked`. */
    method IsChapterUnlocked(id: string) returns (b: bool)
      ensures b == Lookup(AllProgress(), id).isUnlocked
    {
      var r := GetChapterProgress(id);
      b := r.isUnlocked;
    }

    /** `isChapterCompleted`. */
    method IsChapterCompleted(id: string) returns (b: bool)
      ensures b == Lookup(AllProgress(), id).isCompleted
    {
      var r := GetChapterProgress(id);
      b := r.isCompleted;
    }

    /** `completeChapter(id)` is `updateChapterProgress(id, 100)`. */
    method CompleteChapter(id: string, now: string)
      modifies this
      ensures stored == Some(Updated(order, old(AllProgress()), id, 100, now))
    {
      UpdateChapterProgress(id, 100, now);
    }

    /** `getCompletedChaptersCount`: every completed record counts, catalog chapter or not. */
    method GetCompletedChaptersCount() returns (n: nat)
      ensures n == |CompletedIds(AllProgress())|
    {
      var all := GetAllProgress();
      n := |set id | id in all && all[id].isCompleted|;
    }

    /** `getOverallProgress`: `Math.round(count / chapters.length * 100)`. */
    method GetOverallProgress() returns (pct: nat)
      requires Valid()
      ensures pct == RoundPercent(|CompletedIds(AllProgress())|, |order|)
    {
      var count := GetCompletedChaptersCount();
      pct := RoundPercent(count, |order|);
    }

    /** `resetAllProgress`: remove the key, so that the next read gives the default map. */
    method ResetAllProgress()
      modifies this
      ensures stored == None
      ensures AllProgress() == DefaultProgress(order)
    {
      stored := None;
    }
  }
}
