/**
 * The past-exam question bank: the `Question` record, the fifteen catalog
 * entries (their identifying fields only; statement, option texts and
 * explanations are prose), the four single-field queries and the filtered,
 * shuffled, truncated draw `getRandomQuestions`.
 */
module Questions {
  import opened Wrappers
  import opened Seqs
  import opened Strings
  import Shuffle

  /** A question; `options` holds the option labels in display order. */
  datatype Question = Question(
    id: string,
    year: nat,
    questionNumber: nat,
    subject: string,
    knowledgePointId: string,
    options: seq<string>,
    answer: string,
    difficulty: int)

  const labels: seq<string> := ["A", "B", "C", "D"]

  const sampleQuestions: seq<Question> := [
    Question("2024-13", 2024, 13, "co", "ch01-1.2", labels, "B", 2),
    Question("2024-23", 2024, 23, "os", "ch01-1.7", labels, "A", 2),
    Question("2024-28", 2024, 28, "os", "ch01-1.7", labels, "B", 2),
    Question("2023-23", 2023, 23, "os", "ch01-1.7", labels, "D", 2),
    Question("2023-20", 2023, 20, "co", "ch01-1.5", labels, "D", 3),
    Question("2022-16", 2022, 16, "co", "ch01-1.5", labels, "A", 3),
    Question("2022-18", 2022, 18, "co", "ch01-1.4", labels, "B", 2),
    Question("2021-23", 2021, 23, "os", "ch01-1.7", labels, "D", 1),
    Question("2021-12", 2021, 12, "co", "ch01-1.5", labels, "B", 2),
    Question("2020-11", 2020, 11, "co", "ch01-1.5", labels, "C", 1),
    Question("2020-21", 2020, 21, "os", "ch01-1.7", labels, "A", 1),
    Question("2019-11", 2019, 11, "co", "ch01-1.5", labels, "B", 1),
    Question("2024-15", 2024, 15, "co", "ch02-2.4", labels, "B", 3),
    Question("2023-13", 2023, 13, "co", "ch02-2.2", labels, "A", 2),
    Question("2022-13", 2022, 13, "co", "ch02-2.1", labels, "A", 2)
  ]

  // ----- Catalog invariants -----

  /** A well-formed entry: its id is `"<year>-<questionNumber>"`, its answer is one of its labels, its difficulty is 1, 2 or 3. */
  predicate WellFormed(q: Question)
  {
    && q.id == NatToString(q.year) + "-" + NatToString(q.questionNumber)
    && q.answer in q.options
    && 1 <= q.difficulty <= 3
  }

  predicate DistinctIds(s: seq<Question>)
  {
    forall i, j :: 0 <= i < j < |s| ==> s[i].id != s[j].id
  }

  lemma TwoDigits(n: nat)
    requires 10 <= n < 100
    ensures NatToString(n) == [DigitChar(n / 10), DigitChar(n % 10)]
  {
  }

  lemma FourDigits(n: nat)
    requires 1000 <= n < 10000
    ensures NatToString(n) == [DigitChar(n / 1000), DigitChar(n / 100 % 10), DigitChar(n / 10 % 10), DigitChar(n % 10)]
  {
    assert NatToString(n) == NatToString(n / 10) + [DigitChar(n % 10)];
    assert NatToString(n / 10) == NatToString(n / 100) + [DigitChar(n / 10 % 10)];
    TwoDigits(n / 100);
    assert n / 100 / 10 == n / 1000;
  }

  /** The id of a catalog entry spelled out from its year and number. */
  lemma EntryId(q: Question)
    requires 1000 <= q.year < 10000 && 10 <= q.questionNumber < 100
    requires q.id == [DigitChar(q.year / 1000), DigitChar(q.year / 100 % 10), DigitChar(q.year / 10 % 10), DigitChar(q.year % 10),
                      '-', DigitChar(q.questionNumber / 10), DigitChar(q.questionNumber % 10)]
    ensures q.id == NatToString(q.year) + "-" + NatToString(q.questionNumber)
  {
    FourDigits(q.year);
    TwoDigits(q.questionNumber);
  }

  /** Every catalog id is `"<year>-<questionNumber>"`. */
  lemma CatalogIdFormat()
    ensures forall i :: 0 <= i < |sampleQuestions| ==>
      sampleQuestions[i].id == NatToString(sampleQuestions[i].year) + "-" + NatToString(sampleQuestions[i].questionNumber)
  {
    forall i | 0 <= i < |sampleQuestions|
      ensures sampleQuestions[i].id == NatToString(sampleQuestions[i].year) + "-" + NatToString(sampleQuestions[i].questionNumber)
    {
      EntryId(sampleQuestions[i]);
    }
  }

  /** Every answer is one of its question's labels and every difficulty is 1, 2 or 3. */
  lemma CatalogAnswers()
    ensures forall i :: 0 <= i < |sampleQuestions| ==>
      sampleQuestions[i].answer in sampleQuestions[i].options && 1 <= sampleQuestions[i].difficulty <= 3
  {
  }

  /** No two catalog entries share an id. */
  lemma CatalogDistinct()
    ensures DistinctIds(sampleQuestions)
  {
  }

  /** Every catalog entry is well formed and no two share an id. */
  lemma CatalogInvariants()
    ensures |sampleQuestions| == 15
    ensures forall i :: 0 <= i < |sampleQuestions| ==> WellFormed(sampleQuestions[i])
    ensures DistinctIds(sampleQuestions)
  {
    CatalogIdFormat();
    CatalogAnswers();
    CatalogDistinct();
  }

  /** Entries with distinct ids are distinct entries. */
  lemma DistinctIdsNoDuplicates(s: seq<Question>)
    requires DistinctIds(s)
    ensures NoDuplicates(s)
  {
  }

  // ----- Single-field queries -----

  function HasKnowledgePoint(k: string): Question -> bool
  {
    (q: Question) => q.knowledgePointId == k
  }

  function HasSubject(subject: string): Question -> bool
  {
    (q: Question) => q.subject == subject
  }

  /** The chapter test is a prefix test on the knowledge-point id, not an equality. */
  function InChapter(chapterId: string): Question -> bool
  {
    (q: Question) => StartsWith(q.knowledgePointId, chapterId)
  }

  function InYear(year: int): Question -> bool
  {
    (q: Question) => q.year == year
  }

  function HasDifficulty(d: int): Question -> bool
  {
    (q: Question) => q.difficulty == d
  }

  /** `getQuestionsByKnowledgePoint`: the catalog entries of exactly that knowledge point, in catalog order. */
  function GetQuestionsByKnowledgePoint(k: string): (r: seq<Question>)
    ensures |r| <= |sampleQuestions|
    ensures forall q :: q in r <==> q in sampleQuestions && q.knowledgePointId == k
  {
    Filter(sampleQuestions, HasKnowledgePoint(k))
  }

  /** `getQuestionsBySubject`: the catalog entries of that subject, in catalog order. */
  function GetQuestionsBySubject(subject: string): (r: seq<Question>)
    ensures |r| <= |sampleQuestions|
    ensures forall q :: q in r <==> q in sampleQuestions && q.subject == subject
  {
    Filter(sampleQuestions, HasSubject(subject))
  }

  /** `getQuestionsByChapter`: the catalog entries whose knowledge-point id starts with the chapter id. */
  function GetQuestionsByChapter(chapterId: string): (r: seq<Question>)
    ensures |r| <= |sampleQuestions|
    ensures forall q :: q in r <==> q in sampleQuestions && StartsWith(q.knowledgePointId, chapterId)
  {
    Filter(sampleQuestions, InChapter(chapterId))
  }

  /** `getQuestionsByYear`: the catalog entries of that exam year, in catalog order. */
  function GetQuestionsByYear(year: int): (r: seq<Question>)
    ensures |r| <= |sampleQuestions|
    ensures forall q :: q in r <==> q in sampleQuestions && q.year == year
  {
    Filter(sampleQuestions, InYear(year))
  }

  /** `p` holds exactly at the catalog positions listed in `idx`. */
  predicate HoldsAt(p: Question -> bool, idx: seq<nat>)
  {
    forall i :: 0 <= i < |sampleQuestions| ==> (p(sampleQuestions[i]) <==> i in idx)
  }

  /** The first twelve entries belong to chapter 1 and the last three to chapter 2. */
  lemma ChapterDigits()
    ensures forall i :: 0 <= i < |sampleQuestions| ==> |sampleQuestions[i].knowledgePointId| >= 4
    ensures forall i :: 0 <= i < |sampleQuestions| ==>
      sampleQuestions[i].knowledgePointId[..3] == "ch0" && sampleQuestions[i].knowledgePointId[3] == if i < 12 then '1' else '2'
  {
  }

  lemma Chapter01Positions()
    ensures HoldsAt(InChapter("ch01"), Span(0, 12))
  {
    ChapterDigits();
    forall i | 0 <= i < |sampleQuestions|
      ensures InChapter("ch01")(sampleQuestions[i]) <==> i < 12
    {
      var k := sampleQuestions[i].knowledgePointId;
      if i < 12 {
        assert k[..4] == k[..3] + [k[3]];
      } else {
        assert "ch01"[3] != k[3];
      }
    }
  }

  lemma Chapter02Positions()
    ensures HoldsAt(InChapter("ch02"), Span(12, 15))
  {
    ChapterDigits();
    forall i | 0 <= i < |sampleQuestions|
      ensures InChapter("ch02")(sampleQuestions[i]) <==> 12 <= i
    {
      var k := sampleQuestions[i].knowledgePointId;
      if 12 <= i {
        assert k[..4] == k[..3] + [k[3]];
      } else {
        assert "ch02"[3] != k[3];
      }
    }
  }

  lemma Point11Positions()
    ensures HoldsAt(HasKnowledgePoint("ch01-1.1"), [])
  {
  }

  lemma Point12Positions()
    ensures HoldsAt(HasKnowledgePoint("ch01-1.2"), [0])
  {
  }

  lemma Point14Positions()
    ensures HoldsAt(HasKnowledgePoint("ch01-1.4"), [6])
  {
  }

  lemma Point15Positions()
    ensures HoldsAt(HasKnowledgePoint("ch01-1.5"), [4, 5, 8, 9, 11])
  {
  }

  lemma Point17Positions()
    ensures HoldsAt(HasKnowledgePoint("ch01-1.7"), [1, 2, 3, 7, 10])
  {
  }

  lemma Point18Positions()
    ensures HoldsAt(HasKnowledgePoint("ch01-1.8"), [])
  {
  }

  /** Chapter 1's query is a prefix match that returns the first twelve catalog entries. */
  lemma EntriesOfCh01()
    ensures GetQuestionsByChapter("ch01") == sampleQuestions[..12]
    ensures |GetQuestionsByChapter("ch01")| == 12
  {
    Chapter01Positions();
    FilterIndices(sampleQuestions, InChapter("ch01"), Span(0, 12));
    PickSpan(sampleQuestions, 0, 12);
  }

  /** Chapter 2's query returns the last three catalog entries. */
  lemma EntriesOfCh02()
    ensures GetQuestionsByChapter("ch02") == sampleQuestions[12..]
    ensures |GetQuestionsByChapter("ch02")| == 3
  {
    Chapter02Positions();
    FilterIndices(sampleQuestions, InChapter("ch02"), Span(12, 15));
    PickSpan(sampleQuestions, 12, 15);
  }

  /** Knowledge point 1.1 has 0 catalog entries. */
  lemma EntriesOf1_1()
    ensures GetQuestionsByKnowledgePoint("ch01-1.1") == Pick(sampleQuestions, [])
    ensures |GetQuestionsByKnowledgePoint("ch01-1.1")| == 0
  {
    Point11Positions();
    FilterIndices(sampleQuestions, HasKnowledgePoint("ch01-1.1"), []);
  }

  /** Knowledge point 1.2 has 1 catalog entry, at positions 0. */
  lemma EntriesOf1_2()
    ensures GetQuestionsByKnowledgePoint("ch01-1.2") == Pick(sampleQuestions, [0])
    ensures |GetQuestionsByKnowledgePoint("ch01-1.2")| == 1
  {
    Point12Positions();
    FilterIndices(sampleQuestions, HasKnowledgePoint("ch01-1.2"), [0]);
  }

  /** Knowledge point 1.4 has 1 catalog entry, at positions 6. */
  lemma EntriesOf1_4()
    ensures GetQuestionsByKnowledgePoint("ch01-1.4") == Pick(sampleQuestions, [6])
    ensures |GetQuestionsByKnowledgePoint("ch01-1.4")| == 1
  {
    Point14Positions();
    FilterIndices(sampleQuestions, HasKnowledgePoint("ch01-1.4"), [6]);
  }

  /** Knowledge point 1.5 has 5 catalog entries, at positions 4, 5, 8, 9, 11. */
  lemma EntriesOf1_5()
    ensures GetQuestionsByKnowledgePoint("ch01-1.5") == Pick(sampleQuestions, [4, 5, 8, 9, 11])
    ensures |GetQuestionsByKnowledgePoint("ch01-1.5")| == 5
  {
    Point15Positions();
    FilterIndices(sampleQuestions, HasKnowledgePoint("ch01-1.5"), [4, 5, 8, 9, 11]);
  }

  /** Knowledge point 1.7 has 5 catalog entries, at positions 1, 2, 3, 7, 10. */
  lemma EntriesOf1_7()
    ensures GetQuestionsByKnowledgePoint("ch01-1.7") == Pick(sampleQuestions, [1, 2, 3, 7, 10])
    ensures |GetQuestionsByKnowledgePoint("ch01-1.7")| == 5
  {
    Point17Positions();
    FilterIndices(sampleQuestions, HasKnowledgePoint("ch01-1.7"), [1, 2, 3, 7, 10]);
  }

  /** Knowledge point 1.8 has 0 catalog entries. */
  lemma EntriesOf1_8()
    ensures GetQuestionsByKnowledgePoint("ch01-1.8") == Pick(sampleQuestions, [])
    ensures |GetQuestionsByKnowledgePoint("ch01-1.8")| == 0
  {
    Point18Positions();
    FilterIndices(sampleQuestions, HasKnowledgePoint("ch01-1.8"), []);
  }

  // ----- The filtered random draw -----

  /** The optional filters of `getRandomQuestions`; a missing filter object is all `None`. */
  datatype RandomFilters = RandomFilters(
    subject: Option<string>,
    knowledgePointId: Option<string>,
    difficulty: Option<int>,
    year: Option<int>)

  /** A string filter takes part only when given and non-empty (JavaScript truthiness). */
  predicate TextSet(o: Option<string>)
  {
    o.Some? && o.value != ""
  }

  /** A number filter takes part only when given and non-zero. */
  predicate NumberSet(o: Option<int>)
  {
    o.Some? && o.value != 0
  }

  /** `if (cond) questions = questions.filter(p)`. */
  function FilterIf(s: seq<Question>, active: bool, p: Question -> bool): seq<Question>
  {
    if active then Filter(s, p) else s
  }

  /** The pool after the four guarded filters, applied in the order the source applies them. */
  function Pool(s: seq<Question>, f: RandomFilters): seq<Question>
  {
    var bySubject := FilterIf(s, TextSet(f.subject), HasSubject(f.subject.GetOr("")));
    var byPoint := FilterIf(bySubject, TextSet(f.knowledgePointId), HasKnowledgePoint(f.knowledgePointId.GetOr("")));
    var byDifficulty := FilterIf(byPoint, NumberSet(f.difficulty), HasDifficulty(f.difficulty.GetOr(0)));
    FilterIf(byDifficulty, NumberSet(f.year), InYear(f.year.GetOr(0)))
  }

  /** A question passes the filters when it agrees with every filter that takes part. */
  predicate Matches(f: RandomFilters, q: Question)
  {
    && (TextSet(f.subject) ==> q.subject == f.subject.value)
    && (TextSet(f.knowledgePointId) ==> q.knowledgePointId == f.knowledgePointId.value)
    && (NumberSet(f.difficulty) ==> q.difficulty == f.difficulty.value)
    && (NumberSet(f.year) ==> q.year == f.year.value)
  }

  function Passes(f: RandomFilters): Question -> bool
  {
    q => Matches(f, q)
  }

  /** A guarded filter after a filter is one filter by the guarded conjunction. */
  lemma FilterIfFilter(s: seq<Question>, p: Question -> bool, active: bool, q: Question -> bool, both: Question -> bool)
    requires forall x :: both(x) == (p(x) && (active ==> q(x)))
    ensures FilterIf(Filter(s, p), active, q) == Filter(s, both)
  {
    if active {
      FilterFilter(s, p, q, both);
    } else {
      FilterCongruent(s, p, both);
    }
  }

  /** The successive guarded filters select exactly the entries that match all active filters, in catalog order. */
  lemma PoolIsConjunction(s: seq<Question>, f: RandomFilters)
    ensures Pool(s, f) == Filter(s, Passes(f))
  {
    var p1 := (x: Question) => TextSet(f.subject) ==> x.subject == f.subject.value;
    var p2 := (x: Question) => p1(x) && (TextSet(f.knowledgePointId) ==> x.knowledgePointId == f.knowledgePointId.value);
    var p3 := (x: Question) => p2(x) && (NumberSet(f.difficulty) ==> x.difficulty == f.difficulty.value);
    if TextSet(f.subject) {
      FilterCongruent(s, HasSubject(f.subject.GetOr("")), p1);
    } else {
      FilterAll(s, p1);
    }
    FilterIfFilter(s, p1, TextSet(f.knowledgePointId), HasKnowledgePoint(f.knowledgePointId.GetOr("")), p2);
    FilterIfFilter(s, p2, NumberSet(f.difficulty), HasDifficulty(f.difficulty.GetOr(0)), p3);
    FilterIfFilter(s, p3, NumberSet(f.year), InYear(f.year.GetOr(0)), Passes(f));
  }

  lemma SampleNoDuplicates()
    ensures NoDuplicates(sampleQuestions)
  {
    CatalogDistinct();
    DistinctIdsNoDuplicates(sampleQuestions);
  }

  /** The pool of a duplicate-free catalog is duplicate-free and holds only catalog entries that match. */
  lemma PoolFacts(s: seq<Question>, f: RandomFilters)
    requires NoDuplicates(s)
    ensures NoDuplicates(Pool(s, f))
    ensures forall x :: x in Pool(s, f) ==> x in s && Matches(f, x)
  {
    PoolIsConjunction(s, f);
    FilterNoDuplicates(s, Passes(f));
  }

  /** What a prefix of a permutation of the pool inherits from the pool. */
  lemma DrawFacts(s: seq<Question>, f: RandomFilters, shuffled: seq<Question>, end: nat)
    requires multiset(shuffled) == multiset(Pool(s, f))
    requires end <= |shuffled|
    ensures multiset(shuffled[..end]) <= multiset(Pool(s, f))
    ensures forall i :: 0 <= i < end ==> shuffled[i] in s && Matches(f, shuffled[i])
    ensures NoDuplicates(s) ==> NoDuplicates(shuffled[..end])
  {
    PoolIsConjunction(s, f);
    if NoDuplicates(s) {
      PoolFacts(s, f);
      PermutationNoDuplicates(Pool(s, f), shuffled);
      PrefixNoDuplicates(shuffled, end);
    }
    assert shuffled == shuffled[..end] + shuffled[end..];
    assert multiset(shuffled) == multiset(shuffled[..end]) + multiset(shuffled[end..]);
    forall i | 0 <= i < end ensures shuffled[i] in s && Matches(f, shuffled[i]) {
      assert shuffled[i] in multiset(shuffled);
    }
  }

  /** The end index of `slice(0, count)` on a list of length `n`: a negative count counts back from the end. */
  function SliceEnd(count: int, n: nat): (e: nat)
    ensures e <= n
    ensures 0 <= count ==> e == if count < n then count else n
    ensures count < 0 ==> e == if n + count < 0 then 0 else n + count
  {
    if count < 0 then (if n + count < 0 then 0 else n + count)
    else if count < n then count
    else n
  }

  /**
   * The body of `getRandomQuestions` over a given catalog: filter a copy,
   * shuffle it in place and keep the first `count`. The random draws are `rolls`.
   */
  method DrawFrom(catalog: seq<Question>, count: int, filters: RandomFilters, rolls: seq<nat>) returns (r: seq<Question>)
    ensures |r| == SliceEnd(count, |Pool(catalog, filters)|)
    ensures multiset(r) <= multiset(Pool(catalog, filters))
    ensures forall i :: 0 <= i < |r| ==> r[i] in catalog && Matches(filters, r[i])
    ensures NoDuplicates(catalog) ==> NoDuplicates(r)
  {
    var questions := catalog;
    if TextSet(filters.subject) {
      questions := Filter(questions, HasSubject(filters.subject.value));
    }
    if TextSet(filters.knowledgePointId) {
      questions := Filter(questions, HasKnowledgePoint(filters.knowledgePointId.value));
    }
    if NumberSet(filters.difficulty) {
      questions := Filter(questions, HasDifficulty(filters.difficulty.value));
    }
    if NumberSet(filters.year) {
      questions := Filter(questions, InYear(filters.year.value));
    }
    assert questions == Pool(catalog, filters);
    questions := Shuffle.ShuffledCopy(questions, rolls);
    r := questions[..SliceEnd(count, |questions|)];
    DrawFacts(catalog, filters, questions, SliceEnd(count, |questions|));
  }

  /** `getRandomQuestions(count, filters)` draws from the module's catalog. */
  method GetRandomQuestions(count: int, filters: RandomFilters, rolls: seq<nat>) returns (r: seq<Question>)
    ensures |r| == SliceEnd(count, |Pool(sampleQuestions, filters)|)
    ensures 0 <= count ==> |r| == if count < |Pool(sampleQuestions, filters)| then count else |Pool(sampleQuestions, filters)|
    ensures multiset(r) <= multiset(Pool(sampleQuestions, filters))
    ensures forall i :: 0 <= i < |r| ==> r[i] in sampleQuestions && Matches(filters, r[i])
    ensures NoDuplicates(r)
  {
    SampleNoDuplicates();
    r := DrawFrom(sampleQuestions, count, filters, rolls);
  }
}
