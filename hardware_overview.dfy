/**
 * The hardware-overview widget: five hardware components joined by a
 * bus, a click-to-toggle detail panel, and a button that shows or hides
 * the data-flow animation. Detail lines are rendered by
 * `Markdown.ParseMarkdownBold`.
 */
module HardwareOverview {
  import opened Wrappers
  import opened Seqs
  import opened Interaction
  import opened Selection

  datatype Component = Component(id: string, name: string, nameEn: string)

  /** An arrow of the data-flow animation, between two component ids. */
  datatype DataFlow = DataFlow(from: string, to: string, caption: string)

  const Components: seq<Component> := [
    Component("cpu", "CPU（中央处理器）", "Central Processing Unit"),
    Component("memory", "主存（内存）", "Main Memory (RAM)"),
    Component("bus", "总线", "System Bus"),
    Component("io", "I/O 设备", "Input/Output Devices"),
    Component("controller", "I/O 控制器", "I/O Controller")
  ]

  const DataFlows: seq<DataFlow> := [
    DataFlow("cpu", "bus", "读/写请求"),
    DataFlow("bus", "memory", "访问内存"),
    DataFlow("bus", "controller", "控制 I/O"),
    DataFlow("controller", "io", "操作设备")
  ]

  /** The ids of `cs`, in order. */
  function Ids(cs: seq<Component>): (r: seq<string>)
    ensures |r| == |cs| && forall i :: 0 <= i < |cs| ==> r[i] == cs[i].id
  {
    seq(|cs|, i requires 0 <= i < |cs| => cs[i].id)
  }

  /** No two components share an id, so a selection names at most one. */
  lemma ComponentIdsDistinct()
    ensures NoDuplicates(Ids(Components))
  {
    assert Ids(Components) == ["cpu", "memory", "bus", "io", "controller"];
  }

  /** Every data-flow arrow joins two components that are drawn. */
  lemma DataFlowsJoinComponents()
    ensures forall f :: f in DataFlows ==> f.from in Ids(Components) && f.to in Ids(Components)
  {
    assert Ids(Components) == ["cpu", "memory", "bus", "io", "controller"];
  }

  /** `components.find((c) => c.id === selectedComponent)`. */
  function Lookup(selected: Option<string>): (r: Option<Component>)
    ensures r.Some? ==> selected.Some? && r.value in Components && r.value.id == selected.value
    ensures r.None? <==> selected.None? || selected.value !in Ids(Components)
  {
    match FindId(Ids(Components), selected)
    case None => None
    case Some(k) => Some(Components[k])
  }

  /** Selecting a component's id shows that component's details. */
  lemma LookupComponent(k: nat)
    requires k < |Components|
    ensures Lookup(Some(Components[k].id)) == Some(Components[k])
  {
    ComponentIdsDistinct();
    FindIdAt(Ids(Components), k);
  }

  /**
   * Clicking component `k` closes its panel when it is the one open and
   * otherwise opens its panel, whatever was open before.
   */
  lemma ClickComponent(selected: Option<string>, k: nat)
    requires k < |Components|
    ensures Lookup(Toggle(selected, Components[k].id))
         == if selected == Some(Components[k].id) then None else Some(Components[k])
  {
    LookupComponent(k);
  }

  class Overview {
    var selectedComponent: Option<string>
    var showDataFlow: bool
    var latch: Latch

    /** The selection, when there is one, is a drawn component. */
    ghost predicate Valid()
      reads this
    {
      (selectedComponent.Some? ==> selectedComponent.value in Ids(Components)) && latch.Valid()
    }

    /** Mounted with nothing selected and the animation hidden. */
    constructor(hasCallback: bool)
      ensures Valid()
      ensures selectedComponent == None && !showDataFlow && latch == Fresh(hasCallback)
    {
      selectedComponent := None;
      showDataFlow := false;
      latch := Fresh(hasCallback);
    }

    /** A component card's click, with that card's id. */
    method HandleSelect(id: string)
      requires Valid() && id in Ids(Components)
      modifies this
      ensures Valid()
      ensures selectedComponent == Toggle(old(selectedComponent), id)
      ensures showDataFlow == old(showDataFlow) && latch == old(latch).Fire()
    {
      selectedComponent := Toggle(selectedComponent, id);
      latch := latch.Fire();
    }

    /** The data-flow button: show or hide the animation. */
    method ToggleDataFlow()
      requires Valid()
      modifies this
      ensures Valid()
      ensures showDataFlow == !old(showDataFlow)
      ensures selectedComponent == old(selectedComponent) && latch == old(latch).Fire()
    {
      showDataFlow := !showDataFlow;
      latch := latch.Fire();
    }

    /** The detail panel's component: present exactly when something is selected. */
    function Selected(): (r: Option<Component>)
      reads this
      requires Valid()
      ensures r.Some? <==> selectedComponent.Some?
      ensures r.Some? ==> r.value in Components && r.value.id == selectedComponent.value
    {
      Lookup(selectedComponent)
    }
  }
}
