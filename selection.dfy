/** The click-to-select state shared by the hardware, memory and OS widgets. */
module Selection {
  import opened Wrappers
  import opened Seqs

  /** `setSelected(selected === id ? null : id)`. */
  function Toggle(selected: Option<string>, id: string): (r: Option<string>)
    ensures r == None <==> selected == Some(id)
    ensures r != None ==> r == Some(id)
  {
    if selected == Some(id) then None else Some(id)
  }

  /** From `None` or `Some(id)`, clicking `id` twice restores the selection. */
  lemma ToggleInvolution(selected: Option<string>, id: string)
    requires selected == None || selected == Some(id)
    ensures Toggle(Toggle(selected, id), id) == selected
  {
  }

  /**
   * `items.find(x => x.id === selected)`, given the items' ids in order:
   * the position of the first item carrying the selected id; a `null`
   * selection matches no item.
   */
  function FindId(ids: seq<string>, selected: Option<string>): (r: Option<nat>)
    ensures r.Some? ==> selected.Some? && r.value < |ids| && ids[r.value] == selected.value
    ensures r.Some? ==> forall j :: 0 <= j < r.value ==> ids[j] != selected.value
    ensures r.None? <==> selected.None? || selected.value !in ids
  {
    if selected.None? then None
    else
      var i := FindIndex(ids, (x: string) => x == selected.value);
      assert i == -1 ==> forall j :: 0 <= j < |ids| ==> ids[j] != selected.value;
      if i == -1 then None else Some(i as nat)
  }

  /** With distinct ids, selecting an item's id finds exactly that item. */
  lemma FindIdAt(ids: seq<string>, k: nat)
    requires NoDuplicates(ids) && k < |ids|
    ensures FindId(ids, Some(ids[k])) == Some(k)
  {
    var r := FindId(ids, Some(ids[k]));
    assert r.Some? by { assert ids[k] in ids; }
  }
}
