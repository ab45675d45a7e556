/**
 * The memory-hierarchy widget: seven storage layers drawn as a pyramid
 * from the fastest (registers) to the slowest (hard disk), with a
 * click-to-toggle detail panel. Detail lines are rendered by
 * `Markdown.ParseMarkdownBold`.
 */
module MemoryHierarchy {
  import opened Wrappers
  import opened Seqs
  import opened Interaction
  import opened Selection

  /** A layer; `speedValue` is its access time in nanoseconds, `width` its bar in pixels. */
  datatype Layer = Layer(id: string, name: string, nameEn: string, speedValue: real, width: nat)

  const Layers: seq<Layer> := [
    Layer("registers", "寄存器", "Registers", 0.5, 120),
    Layer("l1cache", "L1 高速缓存", "L1 Cache", 1.0, 180),
    Layer("l2cache", "L2 高速缓存", "L2 Cache", 10.0, 240),
    Layer("l3cache", "L3 高速缓存", "L3 Cache", 30.0, 300),
    Layer("memory", "主存 (内存)", "Main Memory (RAM)", 100.0, 380),
    Layer("ssd", "固态硬盘 (SSD)", "Solid State Drive", 100000.0, 440),
    Layer("hdd", "机械硬盘 (HDD)", "Hard Disk Drive", 10000000.0, 500)
  ]

  /** The ids of `ls`, in order. */
  function Ids(ls: seq<Layer>): (r: seq<string>)
    ensures |r| == |ls| && forall i :: 0 <= i < |ls| ==> r[i] == ls[i].id
  {
    seq(|ls|, i requires 0 <= i < |ls| => ls[i].id)
  }

  /** No two layers share an id, so a selection names at most one. */
  lemma LayerIdsDistinct()
    ensures NoDuplicates(Ids(Layers))
  {
    assert Ids(Layers) == ["registers", "l1cache", "l2cache", "l3cache", "memory", "ssd", "hdd"];
  }

  /** Of two neighbouring layers, the lower one is slower and drawn wider. */
  lemma AdjacentLayers(k: nat)
    requires k + 1 < |Layers|
    ensures Layers[k].speedValue < Layers[k + 1].speedValue && Layers[k].width < Layers[k + 1].width
  {
  }

  /** Layer `j` is slower and wider than any layer `i` above it, going down one layer at a time. */
  lemma {:induction false} LayersOrdered(i: nat, j: nat)
    requires i < j < |Layers|
    ensures Layers[i].speedValue < Layers[j].speedValue && Layers[i].width < Layers[j].width
    decreases j - i
  {
    AdjacentLayers(j - 1);
    if i < j - 1 {
      LayersOrdered(i, j - 1);
    }
  }

  /**
   * The pyramid is drawn in the stated fastest-to-slowest order: going
   * down, every layer is slower and its bar is wider than any above it.
   */
  lemma PyramidOrder()
    ensures forall i, j :: 0 <= i < j < |Layers| ==> Layers[i].speedValue < Layers[j].speedValue
    ensures forall i, j :: 0 <= i < j < |Layers| ==> Layers[i].width < Layers[j].width
  {
    forall i, j | 0 <= i < j < |Layers|
      ensures Layers[i].speedValue < Layers[j].speedValue && Layers[i].width < Layers[j].width
    {
      LayersOrdered(i, j);
    }
  }

  /** `layers.find((l) => l.id === selectedLayer)`. */
  function Lookup(selected: Option<string>): (r: Option<Layer>)
    ensures r.Some? ==> selected.Some? && r.value in Layers && r.value.id == selected.value
    ensures r.None? <==> selected.None? || selected.value !in Ids(Layers)
  {
    match FindId(Ids(Layers), selected)
    case None => None
    case Some(k) => Some(Layers[k])
  }

  /**
   * Clicking layer `k` closes its panel when it is the one open and
   * otherwise opens that layer's panel.
   */
  lemma ClickLayer(selected: Option<string>, k: nat)
    requires k < |Layers|
    ensures Lookup(Toggle(selected, Layers[k].id))
         == if selected == Some(Layers[k].id) then None else Some(Layers[k])
  {
    LayerIdsDistinct();
    FindIdAt(Ids(Layers), k);
  }

  class Hierarchy {
    var selectedLayer: Option<string>
    var latch: Latch

    /** The selection, when there is one, is a drawn layer. */
    ghost predicate Valid()
      reads this
    {
      (selectedLayer.Some? ==> selectedLayer.value in Ids(Layers)) && latch.Valid()
    }

    /** Mounted with nothing selected. */
    constructor(hasCallback: bool)
      ensures Valid()
      ensures selectedLayer == None && latch == Fresh(hasCallback)
    {
      selectedLayer := None;
      latch := Fresh(hasCallback);
    }

    /** A layer bar's click, with that layer's id. */
    method HandleSelect(id: string)
      requires Valid() && id in Ids(Layers)
      modifies this
      ensures Valid()
      ensures selectedLayer == Toggle(old(selectedLayer), id) && latch == old(latch).Fire()
    {
      selectedLayer := Toggle(selectedLayer, id);
      latch := latch.Fire();
    }

    /** The detail panel's layer: present exactly when something is selected. */
    function Selected(): (r: Option<Layer>)
      reads this
      requires Valid()
      ensures r.Some? <==> selectedLayer.Some?
      ensures r.Some? ==> r.value in Layers && r.value.id == selectedLayer.value
    {
      Lookup(selectedLayer)
    }
  }
}
