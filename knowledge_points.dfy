/**
 * The knowledge-point taxonomy: the four exam subjects, the six chapter-1
 * knowledge points, the point-to-subject table, and the three lookups
 * (by chapter, by subject, keyword search).
 */
module KnowledgePoints {
  import opened Seqs
  import opened Strings

  datatype KnowledgePoint = KnowledgePoint(
    id: string,
    chapterId: string,
    section: string,
    title: string,
    keywords: seq<string>)

  /** A subject; its display name, icon and colour are presentation. */
  datatype Subject = Subject(id: string, nameEn: string)

  const subjects: seq<Subject> := [
    Subject("ds", "Data Structures"),
    Subject("co", "Computer Organization"),
    Subject("os", "Operating Systems"),
    Subject("cn", "Computer Networks")
  ]

  const chapter1KnowledgePoints: seq<KnowledgePoint> := [
    KnowledgePoint("ch01-1.1", "ch01", "1.1", "信息就是位+上下文", ["二进制", "位", "字节", "ASCII", "编码", "补码", "浮点数"]),
    KnowledgePoint("ch01-1.2", "ch01", "1.2", "编译系统", ["编译", "预处理", "汇编", "链接", "gcc"]),
    KnowledgePoint("ch01-1.4", "ch01", "1.4", "处理器与硬件", ["CPU", "总线", "内存", "I/O", "程序计数器", "ALU", "寄存器"]),
    KnowledgePoint("ch01-1.5", "ch01", "1.5-1.6", "存储层次结构", ["高速缓存", "cache", "L1", "L2", "L3", "局部性", "存储层次"]),
    KnowledgePoint("ch01-1.7", "ch01", "1.7", "操作系统管理硬件", ["操作系统", "进程", "线程", "虚拟内存", "文件", "抽象"]),
    KnowledgePoint("ch01-1.8", "ch01", "1.8", "网络通信", ["网络", "TCP/IP", "客户端", "服务器"])
  ]

  const knowledgePointToSubject: map<string, seq<string>> := map[
    "ch01-1.1" := ["co"],
    "ch01-1.2" := ["co"],
    "ch01-1.4" := ["co"],
    "ch01-1.5" := ["co"],
    "ch01-1.7" := ["os"],
    "ch01-1.8" := ["cn"]
  ]

  // ----- Data invariants -----

  function SubjectIds(): (ids: seq<string>)
    ensures |ids| == |subjects|
    ensures forall i :: 0 <= i < |subjects| ==> ids[i] == subjects[i].id
  {
    seq(|subjects|, i requires 0 <= i < |subjects| => subjects[i].id)
  }

  /** The four subject ids are distinct. */
  lemma SubjectsDistinct()
    ensures SubjectIds() == ["ds", "co", "os", "cn"]
    ensures NoDuplicates(SubjectIds())
  {
  }

  /** Every point is in chapter 1 and its id is its chapter id, a dash and more. */
  lemma PointsInChapterOne()
    ensures |chapter1KnowledgePoints| == 6
    ensures forall i :: 0 <= i < |chapter1KnowledgePoints| ==>
      chapter1KnowledgePoints[i].chapterId == "ch01"
      && StartsWith(chapter1KnowledgePoints[i].id, chapter1KnowledgePoints[i].chapterId + "-")
  {
  }

  /** Point ids are distinct, each has a subject entry, and every listed subject is one of the four. */
  lemma SubjectTableCovers()
    ensures forall i, j :: 0 <= i < j < |chapter1KnowledgePoints| ==> chapter1KnowledgePoints[i].id != chapter1KnowledgePoints[j].id
    ensures forall i :: 0 <= i < |chapter1KnowledgePoints| ==> chapter1KnowledgePoints[i].id in knowledgePointToSubject
    ensures forall id :: id in knowledgePointToSubject ==>
      forall s :: s in knowledgePointToSubject[id] ==> s in SubjectIds()
  {
    SubjectsDistinct();
  }

  // ----- Lookups -----

  function OfChapter(chapterId: string): KnowledgePoint -> bool
  {
    (kp: KnowledgePoint) => kp.chapterId == chapterId
  }

  /** `getKnowledgePointsByChapter`: only chapter 1 has points so far. */
  function GetKnowledgePointsByChapter(chapterId: string): seq<KnowledgePoint>
  {
    if chapterId == "ch01" then chapter1KnowledgePoints else []
  }

  /** The chapter lookup agrees with filtering the points by their chapter: all six for "ch01", none otherwise. */
  lemma ByChapterIsFilter(chapterId: string)
    ensures GetKnowledgePointsByChapter(chapterId) == Filter(chapter1KnowledgePoints, OfChapter(chapterId))
    ensures |GetKnowledgePointsByChapter(chapterId)| == if chapterId == "ch01" then 6 else 0
  {
    PointsInChapterOne();
    if chapterId == "ch01" {
      FilterAll(chapter1KnowledgePoints, OfChapter(chapterId));
    } else {
      FilterNone(chapter1KnowledgePoints, OfChapter(chapterId));
    }
  }

  /** `knowledgePointToSubject[id]`, with a missing entry read as no subjects (the `?.` of the source). */
  function SubjectsOf(id: string): seq<string>
  {
    if id in knowledgePointToSubject then knowledgePointToSubject[id] else []
  }

  function ServesSubject(subjectId: string): KnowledgePoint -> bool
  {
    (kp: KnowledgePoint) => subjectId in SubjectsOf(kp.id)
  }

  /** `getKnowledgePointsBySubject`: the points whose subject list contains the id, in order. */
  function GetKnowledgePointsBySubject(subjectId: string): (r: seq<KnowledgePoint>)
    ensures forall kp :: kp in r <==> kp in chapter1KnowledgePoints && subjectId in SubjectsOf(kp.id)
  {
    Filter(chapter1KnowledgePoints, ServesSubject(subjectId))
  }

  predicate HoldsAt(p: KnowledgePoint -> bool, idx: seq<nat>)
  {
    forall i :: 0 <= i < |chapter1KnowledgePoints| ==> (p(chapter1KnowledgePoints[i]) <==> i in idx)
  }

  /** The subject list of each point, by position. */
  lemma SubjectsByPosition()
    ensures forall i :: 0 <= i < |chapter1KnowledgePoints| ==>
      SubjectsOf(chapter1KnowledgePoints[i].id) == if i < 4 then ["co"] else if i == 4 then ["os"] else ["cn"]
  {
  }

  lemma BySubjectAt(subjectId: string, idx: seq<nat>)
    requires Increasing(idx) && Below(idx, |chapter1KnowledgePoints|)
    requires HoldsAt(ServesSubject(subjectId), idx)
    ensures GetKnowledgePointsBySubject(subjectId) == Pick(chapter1KnowledgePoints, idx)
  {
    FilterIndices(chapter1KnowledgePoints, ServesSubject(subjectId), idx);
  }

  lemma CoPositions()
    ensures HoldsAt(ServesSubject("co"), Span(0, 4))
  {
    SubjectsByPosition();
  }

  lemma OsPositions()
    ensures HoldsAt(ServesSubject("os"), [4])
  {
    SubjectsByPosition();
  }

  lemma CnPositions()
    ensures HoldsAt(ServesSubject("cn"), [5])
  {
    SubjectsByPosition();
  }

  lemma DsPositions()
    ensures HoldsAt(ServesSubject("ds"), [])
  {
    SubjectsByPosition();
  }

  /** Computer organisation is served by points 1.1, 1.2, 1.4 and 1.5. */
  lemma SubjectCo()
    ensures GetKnowledgePointsBySubject("co") == chapter1KnowledgePoints[..4]
  {
    CoPositions();
    BySubjectAt("co", Span(0, 4));
    PickSpan(chapter1KnowledgePoints, 0, 4);
  }

  /** Operating systems is served by point 1.7 only. */
  lemma SubjectOs()
    ensures GetKnowledgePointsBySubject("os") == [chapter1KnowledgePoints[4]]
  {
    OsPositions();
    BySubjectAt("os", [4]);
  }

  /** Computer networks is served by point 1.8 only. */
  lemma SubjectCn()
    ensures GetKnowledgePointsBySubject("cn") == [chapter1KnowledgePoints[5]]
  {
    CnPositions();
    BySubjectAt("cn", [5]);
  }

  /** Data structures has no chapter-1 point. */
  lemma SubjectDs()
    ensures GetKnowledgePointsBySubject("ds") == []
  {
    DsPositions();
    BySubjectAt("ds", []);
  }

  /** A point matches a lower-cased query through its lower-cased title or any lower-cased keyword. */
  predicate MatchesQuery(kp: KnowledgePoint, lowerKeyword: string)
  {
    || Includes(ToLower(kp.title), lowerKeyword)
    || exists i :: 0 <= i < |kp.keywords| && Includes(ToLower(kp.keywords[i]), lowerKeyword)
  }

  function Search(lowerKeyword: string): KnowledgePoint -> bool
  {
    (kp: KnowledgePoint) => MatchesQuery(kp, lowerKeyword)
  }

  /** `searchKnowledgePoints(keyword)`: the matching points in order (lower-casing is ASCII-only). */
  function SearchKnowledgePoints(keyword: string): (r: seq<KnowledgePoint>)
    ensures forall kp :: kp in r <==> kp in chapter1KnowledgePoints && MatchesQuery(kp, ToLower(keyword))
  {
    Filter(chapter1KnowledgePoints, Search(ToLower(keyword)))
  }

  /** The empty query is contained in every title, so it returns all six points. */
  lemma SearchEmpty()
    ensures SearchKnowledgePoints("") == chapter1KnowledgePoints
  {
    forall i | 0 <= i < |chapter1KnowledgePoints| ensures Search("")(chapter1KnowledgePoints[i]) {
      assert OccursAt(ToLower(chapter1KnowledgePoints[i].title), "", 0);
    }
    FilterAll(chapter1KnowledgePoints, Search(""));
  }

  /** Search ignores ASCII case in the query. */
  lemma SearchCaseInsensitive(keyword: string)
    ensures SearchKnowledgePoints(ToLower(keyword)) == SearchKnowledgePoints(keyword)
  {
    ToLowerIdempotent(keyword);
  }
}
