/** The static chapter catalog and the navigation between chapters. */
module Chapters {
  import opened Wrappers
  import Seqs

  /** A chapter of the course (description, icon and colour are presentation and left out). */
  datatype Chapter = Chapter(id: string, part: nat, number: nat, title: string, titleEn: string)

  /** The twelve chapters in catalog order, written as the runs of parts 1, 2 and 3. */
  const chapters: seq<Chapter> := part1 + part2 + part3

  /** Part 1, "计算机系统漫游" to "存储器层次结构". */
  const part1: seq<Chapter> := [
    Chapter("ch01", 1, 1, "计算机系统漫游", "A Tour of Computer Systems"),
    Chapter("ch02", 1, 2, "信息的表示和处理", "Representing and Manipulating Information"),
    Chapter("ch03", 1, 3, "程序的机器级表示", "Machine-Level Representation of Programs"),
    Chapter("ch04", 1, 4, "处理器体系结构", "Processor Architecture"),
    Chapter("ch05", 1, 5, "优化程序性能", "Optimizing Program Performance"),
    Chapter("ch06", 1, 6, "存储器层次结构", "The Memory Hierarchy")
  ]

  const part2: seq<Chapter> := [
    Chapter("ch07", 2, 7, "链接", "Linking"),
    Chapter("ch08", 2, 8, "异常控制流", "Exceptional Control Flow"),
    Chapter("ch09", 2, 9, "虚拟内存", "Virtual Memory")
  ]

  const part3: seq<Chapter> := [
    Chapter("ch10", 3, 10, "系统级 I/O", "System-Level I/O"),
    Chapter("ch11", 3, 11, "网络编程", "Network Programming"),
    Chapter("ch12", 3, 12, "并发编程", "Concurrent Programming")
  ]

  /** Ids are distinct, so an id names at most one chapter. */
  predicate DistinctIds(cs: seq<Chapter>)
  {
    forall i, j :: 0 <= i < j < |cs| ==> cs[i].id != cs[j].id
  }

  lemma CatalogSize()
    ensures |chapters| == 12
  {
  }

  lemma CatalogDistinct()
    ensures DistinctIds(chapters)
  {
  }

  lemma CatalogNumbers()
    ensures forall i :: 0 <= i < |chapters| ==> chapters[i].number == i + 1
  {
  }

  lemma CatalogParts()
    ensures forall i :: 0 <= i < |chapters| ==> 1 <= chapters[i].part <= 3
    ensures forall i, j :: 0 <= i < j < |chapters| ==> chapters[i].part <= chapters[j].part
  {
  }

  /** The shape of the catalog: 12 chapters, distinct ids, `number` is position + 1, parts run 1..3 without going back. */
  lemma CatalogShape()
    ensures |chapters| == 12
    ensures DistinctIds(chapters)
    ensures forall i :: 0 <= i < |chapters| ==> chapters[i].number == i + 1
    ensures forall i :: 0 <= i < |chapters| ==> 1 <= chapters[i].part <= 3
    ensures forall i, j :: 0 <= i < j < |chapters| ==> chapters[i].part <= chapters[j].part
  {
    CatalogSize();
    CatalogDistinct();
    CatalogNumbers();
    CatalogParts();
  }

  /** The chapter ids in catalog order: the only part of the catalog the progress tracker uses. */
  function CatalogIds(): (ids: seq<string>)
    ensures |ids| == |chapters|
    ensures forall i :: 0 <= i < |chapters| ==> ids[i] == chapters[i].id
  {
    seq(|chapters|, i requires 0 <= i < |chapters| => chapters[i].id)
  }

  /** The catalog ids are twelve distinct strings, and an id is among them exactly when it names a chapter. */
  lemma CatalogIdsShape()
    ensures |CatalogIds()| == 12
    ensures Seqs.NoDuplicates(CatalogIds())
    ensures forall id :: id in CatalogIds() <==> InCatalog(id)
  {
    CatalogSize();
    CatalogDistinct();
    var ids := CatalogIds();
    forall id | InCatalog(id)
      ensures id in ids
    {
      var i :| 0 <= i < |chapters| && chapters[i].id == id;
      assert ids[i] == id;
    }
  }

  /** Some chapter of the catalog has this id. */
  predicate InCatalog(id: string)
  {
    exists i :: 0 <= i < |chapters| && chapters[i].id == id
  }

  /** `chaptersByPart[part].chapters`: the chapters of one part, in catalog order. */
  function ChaptersByPart(part: nat): (r: seq<Chapter>)
    ensures forall i :: 0 <= i < |r| ==> r[i] in chapters && r[i].part == part
    ensures forall c :: c in chapters && c.part == part ==> c in r
  {
    Seqs.Filter(chapters, InPart(part))
  }

  /** The test `ch => ch.part === part`. */
  function InPart(part: nat): Chapter -> bool
  {
    (c: Chapter) => c.part == part
  }

  /** The chapters of `part` when the catalog is a run `a` of that part between runs `b`, `c` of other parts. */
  lemma FilterRun(b: seq<Chapter>, a: seq<Chapter>, c: seq<Chapter>, part: nat)
    requires forall i :: 0 <= i < |a| ==> a[i].part == part
    requires forall i :: 0 <= i < |b| ==> b[i].part != part
    requires forall i :: 0 <= i < |c| ==> c[i].part != part
    ensures Seqs.Filter(b + a + c, InPart(part)) == a
  {
    var p := InPart(part);
    Seqs.FilterConcat(b + a, c, p);
    Seqs.FilterConcat(b, a, p);
    Seqs.FilterNone(b, p);
    Seqs.FilterAll(a, p);
    Seqs.FilterNone(c, p);
  }

  lemma Part1()
    ensures ChaptersByPart(1) == part1 && |part1| == 6
  {
    assert forall i :: 0 <= i < |part2 + part3| ==> (part2 + part3)[i].part != 1;
    assert chapters == [] + part1 + (part2 + part3);
    FilterRun([], part1, part2 + part3, 1);
  }

  lemma Part2()
    ensures ChaptersByPart(2) == part2 && |part2| == 3
  {
    assert chapters == part1 + part2 + part3;
    FilterRun(part1, part2, part3, 2);
  }

  lemma Part3()
    ensures ChaptersByPart(3) == part3 && |part3| == 3
  {
    assert forall i :: 0 <= i < |part1 + part2| ==> (part1 + part2)[i].part != 3;
    assert chapters == (part1 + part2) + part3 + [];
    FilterRun(part1 + part2, part3, [], 3);
  }

  /** Parts 1, 2 and 3 hold 6, 3 and 3 chapters, and laid end to end they are the catalog, each chapter once. */
  lemma PartsPartitionCatalog()
    ensures |ChaptersByPart(1)| == 6 && |ChaptersByPart(2)| == 3 && |ChaptersByPart(3)| == 3
    ensures ChaptersByPart(1) + ChaptersByPart(2) + ChaptersByPart(3) == chapters
  {
    Part1();
    Part2();
    Part3();
  }

  /** `cs.findIndex(ch => ch.id === id)`. */
  function IndexIn(cs: seq<Chapter>, id: string): (i: int)
    ensures -1 <= i < |cs|
    ensures i == -1 <==> forall j :: 0 <= j < |cs| ==> cs[j].id != id
    ensures 0 <= i ==> cs[i].id == id
  {
    Seqs.FindIndex(cs, (c: Chapter) => c.id == id)
  }

  /** With distinct ids, the index of a chapter's id is that chapter's position. */
  lemma IndexInAt(cs: seq<Chapter>, i: nat)
    requires DistinctIds(cs) && i < |cs|
    ensures IndexIn(cs, cs[i].id) == i
  {
    var k := IndexIn(cs, cs[i].id);
    assert 0 <= k;
    assert cs[k].id == cs[i].id;
  }

  /** The chapter after `id` in `cs`: none for an unknown id or the last chapter. */
  function NextIn(cs: seq<Chapter>, id: string): (r: Option<Chapter>)
    ensures r.None? <==> IndexIn(cs, id) == -1 || IndexIn(cs, id) == |cs| - 1
    ensures r.Some? ==> r == Some(cs[IndexIn(cs, id) + 1])
  {
    var i := IndexIn(cs, id);
    if i == -1 || i == |cs| - 1 then None else Some(cs[i + 1])
  }

  /** The chapter before `id` in `cs`: none for an unknown id or the first chapter. */
  function PrevIn(cs: seq<Chapter>, id: string): (r: Option<Chapter>)
    ensures r.None? <==> IndexIn(cs, id) <= 0
    ensures r.Some? ==> r == Some(cs[IndexIn(cs, id) - 1])
  {
    var i := IndexIn(cs, id);
    if i <= 0 then None else Some(cs[i - 1])
  }

  /** In a catalog with distinct ids, stepping forward then back returns to the same chapter. */
  lemma PrevOfNextIn(cs: seq<Chapter>, i: nat)
    requires DistinctIds(cs) && i < |cs| - 1
    ensures NextIn(cs, cs[i].id) == Some(cs[i + 1])
    ensures PrevIn(cs, cs[i + 1].id) == Some(cs[i])
  {
    IndexInAt(cs, i);
    IndexInAt(cs, i + 1);
  }

  /** In a catalog with distinct ids, stepping back then forward returns to the same chapter. */
  lemma NextOfPrevIn(cs: seq<Chapter>, i: nat)
    requires DistinctIds(cs) && 0 < i < |cs|
    ensures PrevIn(cs, cs[i].id) == Some(cs[i - 1])
    ensures NextIn(cs, cs[i - 1].id) == Some(cs[i])
  {
    IndexInAt(cs, i);
    IndexInAt(cs, i - 1);
  }

  /** With distinct ids, only the first chapter has no predecessor and only the last no successor. */
  lemma EndsIn(cs: seq<Chapter>, id: string)
    requires DistinctIds(cs) && |cs| > 0
    ensures IndexIn(cs, id) == 0 <==> id == cs[0].id
    ensures IndexIn(cs, id) == |cs| - 1 <==> id == cs[|cs| - 1].id
  {
    IndexInAt(cs, 0);
    IndexInAt(cs, |cs| - 1);
  }

  /** `getChapterById`: the unique chapter with that id, or none. */
  function GetChapterById(id: string): (r: Option<Chapter>)
    ensures r.Some? <==> InCatalog(id)
    ensures r.Some? ==> r.value in chapters && r.value.id == id
    ensures forall c :: c in chapters && c.id == id ==> r == Some(c)
  {
    CatalogShape();
    Seqs.Find(chapters, (c: Chapter) => c.id == id)
  }

  /** `getNextChapter`: none for an unknown id or the last chapter ("ch12"), otherwise the following chapter. */
  function GetNextChapter(id: string): (r: Option<Chapter>)
    ensures r.None? <==> !InCatalog(id) || id == "ch12"
    ensures r.Some? ==> r.value in chapters
    ensures r.Some? ==> exists i :: 0 <= i < |chapters| - 1 && chapters[i].id == id && r.value == chapters[i + 1]
  {
    assert chapters[|chapters| - 1].id == "ch12";
    CatalogDistinct();
    EndsIn(chapters, id);
    var r := NextIn(chapters, id);
    assert r.Some? ==> var i := IndexIn(chapters, id); 0 <= i < |chapters| - 1 && chapters[i].id == id && r.value == chapters[i + 1];
    r
  }

  /** `getPrevChapter`: none for an unknown id or the first chapter ("ch01"), otherwise the preceding chapter. */
  function GetPrevChapter(id: string): (r: Option<Chapter>)
    ensures r.None? <==> !InCatalog(id) || id == "ch01"
    ensures r.Some? ==> r.value in chapters
    ensures r.Some? ==> exists i :: 0 < i < |chapters| && chapters[i].id == id && r.value == chapters[i - 1]
  {
    assert chapters[0].id == "ch01";
    CatalogDistinct();
    EndsIn(chapters, id);
    var r := PrevIn(chapters, id);
    assert r.Some? ==> var i := IndexIn(chapters, id); 0 < i < |chapters| && chapters[i].id == id && r.value == chapters[i - 1];
    r
  }

  /** Chapter `i + 1` follows chapter `i`, and stepping back from it returns to chapter `i`. */
  lemma PrevOfNext(i: nat)
    requires i < |chapters| - 1
    ensures GetNextChapter(chapters[i].id) == Some(chapters[i + 1])
    ensures GetPrevChapter(chapters[i + 1].id) == Some(chapters[i])
  {
    CatalogDistinct();
    PrevOfNextIn(chapters, i);
  }

  /** Chapter `i - 1` precedes chapter `i`, and stepping forward from it returns to chapter `i`. */
  lemma NextOfPrev(i: nat)
    requires 0 < i < |chapters|
    ensures GetPrevChapter(chapters[i].id) == Some(chapters[i - 1])
    ensures GetNextChapter(chapters[i - 1].id) == Some(chapters[i])
  {
    CatalogDistinct();
    NextOfPrevIn(chapters, i);
  }
}
