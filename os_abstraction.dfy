/**
 * The operating-system abstractions widget: four abstractions (files,
 * virtual memory, processes, threads), each over the hardware it hides,
 * with one of them always selected. Detail lines are rendered by
 * `Markdown.ParseMarkdownBold`.
 */
module OSAbstraction {
  import opened Wrappers
  import opened Seqs
  import opened Interaction
  import opened Selection

  /** An abstraction and the hardware it abstracts. */
  datatype Abstraction = Abstraction(id: string, name: string, nameEn: string, hardware: string)

  const Abstractions: seq<Abstraction> := [
    Abstraction("files", "文件", "Files", "I/O 设备"),
    Abstraction("vmem", "虚拟内存", "Virtual Memory", "主存 + 磁盘"),
    Abstraction("process", "进程", "Process", "CPU + 主存"),
    Abstraction("thread", "线程", "Thread", "CPU")
  ]

  /** The abstraction selected on mount. */
  const InitialSelection: string := "process"

  /** The ids of `abs`, in order. */
  function Ids(abs: seq<Abstraction>): (r: seq<string>)
    ensures |r| == |abs| && forall i :: 0 <= i < |abs| ==> r[i] == abs[i].id
  {
    seq(|abs|, i requires 0 <= i < |abs| => abs[i].id)
  }

  /** No two abstractions share an id. */
  lemma AbstractionIdsDistinct()
    ensures NoDuplicates(Ids(Abstractions))
  {
    assert Ids(Abstractions) == ["files", "vmem", "process", "thread"];
  }

  /** `abstractions.find((a) => a.id === selectedAbstraction)`. */
  function Lookup(selected: Option<string>): (r: Option<Abstraction>)
    ensures r.Some? ==> selected.Some? && r.value in Abstractions && r.value.id == selected.value
    ensures r.None? <==> selected.None? || selected.value !in Ids(Abstractions)
  {
    match FindId(Ids(Abstractions), selected)
    case None => None
    case Some(k) => Some(Abstractions[k])
  }

  /** Clicking abstraction `k` shows it, whatever was shown before. */
  lemma SelectShows(k: nat)
    requires k < |Abstractions|
    ensures Lookup(Some(Abstractions[k].id)) == Some(Abstractions[k])
  {
    AbstractionIdsDistinct();
    FindIdAt(Ids(Abstractions), k);
  }

  /** The initial selection names an abstraction, so a panel shows on mount: processes. */
  lemma InitialSelectionShown()
    ensures InitialSelection in Ids(Abstractions)
    ensures Lookup(Some(InitialSelection)) == Some(Abstractions[2])
    ensures Abstractions[2].hardware == "CPU + 主存"
  {
    SelectShows(2);
  }

  class Explorer {
    var selectedAbstraction: Option<string>
    var latch: Latch

    /** Some abstraction is always selected. */
    ghost predicate Valid()
      reads this
    {
      selectedAbstraction.Some? && selectedAbstraction.value in Ids(Abstractions) && latch.Valid()
    }

    /** Mounted with processes selected. */
    constructor(hasCallback: bool)
      ensures Valid()
      ensures selectedAbstraction == Some(InitialSelection) && latch == Fresh(hasCallback)
    {
      InitialSelectionShown();
      selectedAbstraction := Some(InitialSelection);
      latch := Fresh(hasCallback);
    }

    /**
     * An abstraction button's click, with that abstraction's id: select it
     * (a second click changes nothing but the latch).
     */
    method HandleSelect(id: string)
      requires Valid() && id in Ids(Abstractions)
      modifies this
      ensures Valid()
      ensures selectedAbstraction == Some(id) && latch == old(latch).Fire()
    {
      selectedAbstraction := Some(id);
      latch := latch.Fire();
    }

    /** The detail panel's abstraction, which is always present. */
    function Selected(): (r: Abstraction)
      reads this
      requires Valid()
      ensures r in Abstractions && r.id == selectedAbstraction.value
    {
      Lookup(selectedAbstraction).value
    }
  }
}
