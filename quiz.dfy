/**
 * The quiz session behind the quiz component: it picks a question pool by
 * priority (knowledge point, then chapter prefix, then the whole bank),
 * shuffles it once, walks it one question at a time, scores at most one
 * answer per question and reports `(score, total)` once after the last one.
 * The component's state hooks are the fields of `QuizSession`; each handler
 * is one atomic method.
 */
module Quiz {
  import opened Wrappers
  import opened Seqs
  import opened Strings
  import opened Questions
  import Shuffle
  import Rounding

  /** One call of the `onComplete(score, total)` callback. */
  datatype Report = Report(score: nat, total: nat)

  /** A knowledge-point filter takes part when it is non-empty and not the "all" sentinel. */
  predicate PointSelected(filterKP: string)
  {
    filterKP != "" && filterKP != "all"
  }

  /** The pool chosen by the loading effect, before shuffling. */
  function SelectPool(filterKP: string, chapterId: Option<string>): seq<Question>
  {
    if PointSelected(filterKP) then GetQuestionsByKnowledgePoint(filterKP)
    else if TextSet(chapterId) then GetQuestionsByChapter(chapterId.value)
    else sampleQuestions
  }

  /**
   * The pool is the bank's questions on the selected knowledge point when
   * one is selected, otherwise those whose point starts with the chapter
   * id when that is set, otherwise the whole bank.
   */
  lemma SelectPoolMeaning(filterKP: string, chapterId: Option<string>)
    ensures PointSelected(filterKP) ==> forall q :: q in SelectPool(filterKP, chapterId) <==>
      q in sampleQuestions && q.knowledgePointId == filterKP
    ensures !PointSelected(filterKP) && TextSet(chapterId) ==> forall q :: q in SelectPool(filterKP, chapterId) <==>
      q in sampleQuestions && StartsWith(q.knowledgePointId, chapterId.value)
    ensures !PointSelected(filterKP) && !TextSet(chapterId) ==> SelectPool(filterKP, chapterId) == sampleQuestions
  {
  }

  /** Every catalog answer is a non-empty label, so an empty selection never scores. */
  lemma CatalogAnswersNonEmpty()
    ensures forall q :: q in sampleQuestions ==> q.answer != ""
  {
    CatalogAnswers();
  }

  /** Every question of every pool has an answer. */
  lemma PoolAnswersNonEmpty(filterKP: string, chapterId: Option<string>)
    ensures forall q :: q in SelectPool(filterKP, chapterId) ==> q.answer != ""
  {
    SelectPoolMeaning(filterKP, chapterId);
    CatalogAnswersNonEmpty();
  }

  /** Reordering keeps every question's answer non-empty. */
  lemma AnswersCarryOver(pool: seq<Question>, r: seq<Question>)
    requires forall q :: q in pool ==> q.answer != ""
    requires multiset(r) == multiset(pool)
    ensures forall i :: 0 <= i < |r| ==> r[i].answer != ""
  {
    forall i | 0 <= i < |r| ensures r[i].answer != "" {
      assert r[i] in multiset(pool);
    }
  }

  /** How many of the recorded answers `given` match the questions `qs` position by position. */
  function CorrectCount(qs: seq<Question>, given: seq<string>): (n: nat)
    requires |given| == |qs|
    ensures n <= |qs|
  {
    if qs == [] then 0
    else CorrectCount(qs[..|qs| - 1], given[..|given| - 1]) + (if given[|given| - 1] == qs[|qs| - 1].answer then 1 else 0)
  }

  /** Answering every question correctly scores every question. */
  lemma {:induction false} AllCorrect(qs: seq<Question>, given: seq<string>)
    requires |given| == |qs|
    requires forall k :: 0 <= k < |qs| ==> given[k] == qs[k].answer
    ensures CorrectCount(qs, given) == |qs|
  {
    if qs != [] {
      AllCorrect(qs[..|qs| - 1], given[..|given| - 1]);
    }
  }

  /** A perfect run has percentage 100, and in general the percentage lies in [0, 100]. */
  lemma PerfectPercentage(qs: seq<Question>, given: seq<string>)
    requires |given| == |qs| > 0
    ensures Rounding.RoundPercent(CorrectCount(qs, given), |qs|) <= 100
    ensures (forall k :: 0 <= k < |qs| ==> given[k] == qs[k].answer) ==>
      Rounding.RoundPercent(CorrectCount(qs, given), |qs|) == 100
  {
    Rounding.RoundPercentBounds(CorrectCount(qs, given), |qs|);
    if forall k :: 0 <= k < |qs| ==> given[k] == qs[k].answer {
      AllCorrect(qs, given);
    }
  }

  class QuizSession {
    var chapterId: Option<string>
    const hasOnComplete: bool
    var questions: seq<Question>
    var currentIndex: nat
    var selectedAnswer: Option<string>
    var showExplanation: bool
    var score: nat
    var isComplete: bool
    var filterKP: string
    var showFilter: bool
    /** The `onComplete` calls made so far. */
    var reports: seq<Report>
    /** The answers recorded for the questions already passed. */
    ghost var answered: seq<string>

    /** The current question is answered when the selection is non-empty. */
    function Bonus(): nat
      reads this
      requires currentIndex < |questions|
    {
      if selectedAnswer == Some(questions[currentIndex].answer) then 1 else 0
    }

    ghost predicate Valid()
      reads this
    {
      && (forall i :: 0 <= i < |questions| ==> questions[i].answer != "")
      && (|questions| == 0 ==> currentIndex == 0 && !isComplete && !showExplanation)
      && (|questions| > 0 ==> currentIndex < |questions|)
      && |answered| == currentIndex
      && (showExplanation <==> selectedAnswer.Some?)
      && (isComplete ==> |questions| > 0 && currentIndex == |questions| - 1 && showExplanation)
      && (|questions| > 0 ==> score == CorrectCount(questions[..currentIndex], answered) + Bonus())
      && (|questions| == 0 ==> score == 0)
    }

    /** Mounting the component: the knowledge-point filter starts at the prop or "all", then the pool is loaded. */
    constructor(chapterId: Option<string>, knowledgePointId: Option<string>, hasOnComplete: bool, rolls: seq<nat>)
      ensures Valid()
      ensures this.chapterId == chapterId && this.hasOnComplete == hasOnComplete
      ensures filterKP == if TextSet(knowledgePointId) then knowledgePointId.value else "all"
      ensures multiset(questions) == multiset(SelectPool(filterKP, chapterId))
      ensures currentIndex == 0 && selectedAnswer == None && !showExplanation && score == 0 && !isComplete
      ensures !showFilter && reports == []
    {
      this.chapterId := chapterId;
      this.hasOnComplete := hasOnComplete;
      filterKP := if TextSet(knowledgePointId) then knowledgePointId.value else "all";
      showFilter := false;
      reports := [];
      questions := [];
      currentIndex := 0;
      selectedAnswer := None;
      showExplanation := false;
      score := 0;
      isComplete := false;
      answered := [];
      new;
      Load(rolls);
    }

    /** The loading effect: select, shuffle, store, and start over. */
    method Load(rolls: seq<nat>)
      modifies this
      ensures Valid()
      ensures multiset(questions) == multiset(SelectPool(filterKP, chapterId))
      ensures currentIndex == 0 && selectedAnswer == None && !showExplanation && score == 0 && !isComplete
      ensures filterKP == old(filterKP) && chapterId == old(chapterId)
      ensures showFilter == old(showFilter) && reports == old(reports)
    {
      var pool := SelectPool(filterKP, chapterId);
      PoolAnswersNonEmpty(filterKP, chapterId);
      var shuffled := Shuffle.ShuffledCopy(pool, rolls);
      AnswersCarryOver(pool, shuffled);
      questions := shuffled;
      ResetQuiz();
    }

    /** `resetQuiz`, also the restart button: back to the first question of the same order. */
    method ResetQuiz()
      requires forall i :: 0 <= i < |questions| ==> questions[i].answer != ""
      modifies this
      ensures Valid()
      ensures questions == old(questions)
      ensures currentIndex == 0 && selectedAnswer == None && !showExplanation && score == 0 && !isComplete
      ensures filterKP == old(filterKP) && chapterId == old(chapterId)
      ensures showFilter == old(showFilter) && reports == old(reports)
    {
      currentIndex := 0;
      selectedAnswer := None;
      showExplanation := false;
      score := 0;
      isComplete := false;
      answered := [];
    }

    /** `handleSelect(answer)`; options are shown only on a non-empty, unfinished quiz. */
    method HandleSelect(answer: string)
      requires Valid() && |questions| > 0 && !isComplete
      modifies this
      ensures Valid()
      ensures old(selectedAnswer).Some? && old(selectedAnswer).value != "" ==>
        selectedAnswer == old(selectedAnswer) && score == old(score) && showExplanation == old(showExplanation)
      ensures !(old(selectedAnswer).Some? && old(selectedAnswer).value != "") ==>
        && selectedAnswer == Some(answer) && showExplanation
        && score == old(score) + (if answer == questions[currentIndex].answer then 1 else 0)
      ensures questions == old(questions) && currentIndex == old(currentIndex) && !isComplete
      ensures filterKP == old(filterKP) && chapterId == old(chapterId)
      ensures showFilter == old(showFilter) && reports == old(reports)
    {
      if selectedAnswer.Some? && selectedAnswer.value != "" {
        return;
      }
      selectedAnswer := Some(answer);
      showExplanation := true;
      if answer == questions[currentIndex].answer {
        score := score + 1;
      }
    }

    /** `handleNext`; its button appears only once the current question is answered. */
    method HandleNext()
      requires Valid() && |questions| > 0 && !isComplete && showExplanation
      modifies this
      ensures Valid()
      ensures old(currentIndex) < |questions| - 1 ==>
        && currentIndex == old(currentIndex) + 1 && selectedAnswer == None && !showExplanation
        && !isComplete && reports == old(reports)
      ensures old(currentIndex) == |questions| - 1 ==>
        && currentIndex == old(currentIndex) && isComplete
        && reports == old(reports) + (if hasOnComplete then [Report(score, |questions|)] else [])
      ensures score == old(score) && questions == old(questions)
      ensures filterKP == old(filterKP) && chapterId == old(chapterId) && showFilter == old(showFilter)
    {
      if currentIndex < |questions| - 1 {
        ghost var passed := questions[..currentIndex + 1];
        assert passed[..currentIndex] == questions[..currentIndex];
        answered := answered + [selectedAnswer.value];
        currentIndex := currentIndex + 1;
        selectedAnswer := None;
        showExplanation := false;
      } else {
        isComplete := true;
        if hasOnComplete {
          reports := reports + [Report(score, |questions|)];
        }
      }
    }

    /** A filter button (or "back to all"): a new filter value re-runs the loading effect; the same value changes nothing. */
    method SetFilterKP(kp: string, rolls: seq<nat>)
      requires Valid()
      modifies this
      ensures Valid()
      ensures filterKP == kp && chapterId == old(chapterId)
      ensures showFilter == old(showFilter) && reports == old(reports)
      ensures kp == old(filterKP) ==>
        && questions == old(questions) && currentIndex == old(currentIndex) && selectedAnswer == old(selectedAnswer)
        && showExplanation == old(showExplanation) && score == old(score) && isComplete == old(isComplete)
      ensures kp != old(filterKP) ==>
        && multiset(questions) == multiset(SelectPool(kp, chapterId))
        && currentIndex == 0 && selectedAnswer == None && !showExplanation && score == 0 && !isComplete
    {
      if kp != filterKP {
        filterKP := kp;
        Load(rolls);
      }
    }

    /** A new `chapterId` prop re-runs the loading effect; the same value changes nothing. */
    method SetChapterId(c: Option<string>, rolls: seq<nat>)
      requires Valid()
      modifies this
      ensures Valid()
      ensures chapterId == c && filterKP == old(filterKP)
      ensures showFilter == old(showFilter) && reports == old(reports)
      ensures c == old(chapterId) ==>
        && questions == old(questions) && currentIndex == old(currentIndex) && selectedAnswer == old(selectedAnswer)
        && showExplanation == old(showExplanation) && score == old(score) && isComplete == old(isComplete)
      ensures c != old(chapterId) ==>
        && multiset(questions) == multiset(SelectPool(filterKP, c))
        && currentIndex == 0 && selectedAnswer == None && !showExplanation && score == 0 && !isComplete
    {
      if c != chapterId {
        chapterId := c;
        Load(rolls);
      }
    }

    /** The filter-panel button. */
    method ToggleFilter()
      modifies this
      ensures showFilter == !old(showFilter)
      ensures questions == old(questions) && currentIndex == old(currentIndex) && selectedAnswer == old(selectedAnswer)
      ensures showExplanation == old(showExplanation) && score == old(score) && isComplete == old(isComplete)
      ensures filterKP == old(filterKP) && chapterId == old(chapterId) && reports == old(reports)
    {
      showFilter := !showFilter;
    }

    /** The "no questions" screen offers "back to all" only while a knowledge point is selected. */
    predicate ShowsBackToAll()
      reads this
    {
      |questions| == 0 && filterKP != "all"
    }

    /**
     * An empty pool shows the "no questions" screen: nothing is answered or
     * complete, and the "back to all" button is there exactly when the
     * filter is not "all".
     */
    lemma EmptyPoolScreen()
      requires Valid() && |questions| == 0
      ensures ShowsBackToAll() <==> filterKP != "all"
      ensures !isComplete && !showExplanation && selectedAnswer == None && score == 0
    {
    }

    /**
     * The "back to all" button, `setFilterKP("all")`: the pool is reloaded
     * as a shuffle of the chapter's questions, or of the whole bank when no
     * chapter is given, and the session starts over.
     */
    method BackToAll(rolls: seq<nat>)
      requires Valid() && ShowsBackToAll()
      modifies this
      ensures Valid()
      ensures filterKP == "all" && chapterId == old(chapterId)
      ensures multiset(questions) == multiset(SelectPool("all", chapterId))
      ensures !TextSet(chapterId) ==> multiset(questions) == multiset(sampleQuestions)
      ensures currentIndex == 0 && selectedAnswer == None && !showExplanation && score == 0 && !isComplete
      ensures showFilter == old(showFilter) && reports == old(reports)
    {
      SetFilterKP("all", rolls);
    }

    /** The completion screen's `Math.round(score / questions.length * 100)`. */
    function Percentage(): (pct: nat)
      reads this
      requires |questions| > 0
      ensures 2 * |questions| * pct <= 200 * score + |questions| < 2 * |questions| * (pct + 1)
      ensures score <= |questions| ==> pct <= 100
      ensures score == |questions| ==> pct == 100
      ensures score == 0 ==> pct == 0
    {
      var pct := Rounding.RoundPercent(score, |questions|);
      assert score <= |questions| ==> pct <= 100 && (score == |questions| ==> pct == 100) && (score == 0 ==> pct == 0) by {
        if score <= |questions| {
          Rounding.RoundPercentBounds(score, |questions|);
        }
      }
      pct
    }

    /** While answering, the score is at most the questions passed plus the current one if answered, and at most the pool size. */
    lemma ScoreBounds()
      requires Valid() && |questions| > 0
      ensures score <= currentIndex + (if selectedAnswer.Some? then 1 else 0) <= |questions|
    {
    }

    /**
     * On the completion screen the score counts the correct answers over the
     * whole pool, the percentage lies in [0, 100], and a perfect run scores
     * every question with percentage 100.
     */
    lemma FinalScore()
      requires Valid() && isComplete
      ensures score == CorrectCount(questions, answered + [selectedAnswer.value])
      ensures Percentage() <= 100
      ensures ((forall k :: 0 <= k < currentIndex ==> answered[k] == questions[k].answer)
               && selectedAnswer == Some(questions[currentIndex].answer)) ==>
        score == |questions| && Percentage() == 100
    {
      ghost var given := answered + [selectedAnswer.value];
      assert questions[..currentIndex] == questions[..|questions| - 1];
      assert questions == questions[..|questions|];
      assert given[..|given| - 1] == answered;
      PerfectPercentage(questions, given);
      if (forall k :: 0 <= k < currentIndex ==> answered[k] == questions[k].answer)
         && selectedAnswer == Some(questions[currentIndex].answer)
      {
        assert forall k :: 0 <= k < |questions| ==> given[k] == questions[k].answer;
        AllCorrect(questions, given);
      }
    }
  }
}
