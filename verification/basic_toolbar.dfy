/** The basic toolbar page (editor/basic_toolbar.py): while it is active,
    the instance under the mouse on the selected layer is outlined, and a
    click selects the outlined instance.

    Instances are opaque values with the id of their layer (`layerOf`);
    the game scene that asks the outliner and draws the outline is not
    modelled, nor is the editor beyond its selected layer, whether a map
    is loaded and the selected object. */
module BasicToolbar {
  import opened Py
  import Loops

  /** The outline colour: opaque white. */
  const OutlineData: (int, int, int, int) := (255, 255, 255, 1)

  /** The outliner remembers the instance it outlined last. */
  datatype Outliner<I> = Outliner(lastInstance: Option<I>)

  /** The parts of the editor's current mode the page touches: whether its
      outliner is installed, and the listener's outlining switch. */
  datatype Mode = Mode(outlinerInstalled: bool, isOutlined: bool)

  datatype Toolbar<I> = Toolbar(isActive: bool, outliner: Outliner<I>)

  datatype Editor<I> = Editor(selectedLayer: Option<string>, hasMap: bool, selectedObject: Option<I>, mode: Mode)

  function NewToolbar<I>(): (t: Toolbar<I>)
    ensures !t.isActive && t.outliner.lastInstance.None?
  {
    Toolbar(false, Outliner(None))
  }

  /** `get_outlines`: the first instance, in the order given, on the
      selected layer is outlined and remembered; when there is none,
      nothing is outlined and the memory is cleared. */
  function GetOutlines<I>(o: Outliner<I>, selectedLayer: Option<string>, instances: seq<I>, layerOf: I -> string)
    : (r: (Outliner<I>, seq<(I, (int, int, int, int))>))
    ensures |r.1| <= 1
    ensures r.1 == [] <==> forall i | 0 <= i < |instances| :: selectedLayer != Some(layerOf(instances[i]))
    ensures r.1 == [] ==> r.0.lastInstance.None?
    ensures r.1 != [] ==>
      && r.1[0].1 == OutlineData
      && r.0.lastInstance == Some(r.1[0].0)
      && exists i | 0 <= i < |instances| ::
           && instances[i] == r.1[0].0
           && selectedLayer == Some(layerOf(instances[i]))
           && forall j | 0 <= j < i :: selectedLayer != Some(layerOf(instances[j]))
  {
    match Loops.FirstIndex(instances, x => selectedLayer == Some(layerOf(x)))
    case None => (Outliner(None), [])
    case Some(i) => (Outliner(Some(instances[i])), [(instances[i], OutlineData)])
  }

  /** Instances after the first one on the selected layer do not change
      what is outlined. */
  lemma {:induction false} LaterInstancesIrrelevant<I>(o: Outliner<I>, selectedLayer: Option<string>, instances: seq<I>, more: seq<I>, layerOf: I -> string)
    requires GetOutlines(o, selectedLayer, instances, layerOf).1 != []
    ensures GetOutlines(o, selectedLayer, instances + more, layerOf) == GetOutlines(o, selectedLayer, instances, layerOf)
  {
    var p := x => selectedLayer == Some(layerOf(x));
    var xs := instances + more;
    assert forall i | 0 <= i < |instances| :: xs[i] == instances[i];
    var i := Loops.FirstIndex(instances, p).value;
    var k := Loops.FirstIndex(xs, p);
    assert k.Some?;
    assert k.value == i by {
      assert !(k.value < i);
      assert !(i < k.value);
    }
  }

  /** `activate`: the page is active and its outliner installed. */
  function Activate<I>(t: Toolbar<I>, m: Mode): (r: (Toolbar<I>, Mode))
    ensures r.0.isActive && r.0.outliner == t.outliner
    ensures r.1.outlinerInstalled && r.1.isOutlined
  {
    (t.(isActive := true), Mode(true, true))
  }

  /** `deactivate`: the page is inactive and no outliner installed. */
  function Deactivate<I>(t: Toolbar<I>, m: Mode): (r: (Toolbar<I>, Mode))
    ensures !r.0.isActive && r.0.outliner == t.outliner
    ensures !r.1.outlinerInstalled && !r.1.isOutlined
  {
    (t.(isActive := false), Mode(false, false))
  }

  /** Deactivating after activating leaves the page as a fresh one finds
      it, its outliner's memory aside. */
  lemma ActivateDeactivate<I>(t: Toolbar<I>, m: Mode)
    requires !t.isActive
    ensures Deactivate(Activate(t, m).0, Activate(t, m).1) == (t, Mode(false, false))
  {
  }

  /** `cb_map_clicked`: with a layer selected, the page active and a map
      loaded, the instance outlined last becomes the editor's selection;
      otherwise nothing changes. */
  function CbMapClicked<I>(t: Toolbar<I>, e: Editor<I>): (r: Editor<I>)
    ensures r.selectedLayer == e.selectedLayer && r.hasMap == e.hasMap && r.mode == e.mode
    ensures r.selectedObject != e.selectedObject ==>
      e.selectedLayer.Some? && t.isActive && e.hasMap && r.selectedObject == t.outliner.lastInstance
    ensures e.selectedLayer.Some? && t.isActive && e.hasMap && t.outliner.lastInstance.Some? ==>
      r.selectedObject == t.outliner.lastInstance
  {
    if e.selectedLayer.None? || !t.isActive then e
    else if e.hasMap && t.outliner.lastInstance.Some? then e.(selectedObject := t.outliner.lastInstance)
    else e
  }

  /** Outlining and then clicking selects the first instance on the
      selected layer. */
  lemma {:induction false} ClickSelectsOutlined<I>(t: Toolbar<I>, e: Editor<I>, instances: seq<I>, layerOf: I -> string, i: nat)
    requires t.isActive && e.hasMap && e.selectedLayer.Some?
    requires i < |instances| && layerOf(instances[i]) == e.selectedLayer.value
    requires forall j | 0 <= j < i :: layerOf(instances[j]) != e.selectedLayer.value
    ensures var t' := t.(outliner := GetOutlines(t.outliner, e.selectedLayer, instances, layerOf).0);
      CbMapClicked(t', e).selectedObject == Some(instances[i])
  {
    var r := GetOutlines(t.outliner, e.selectedLayer, instances, layerOf);
    assert r.1 != [];
    var k :| 0 <= k < |instances| && instances[k] == r.1[0].0
             && e.selectedLayer == Some(layerOf(instances[k]))
             && forall j | 0 <= j < k :: e.selectedLayer != Some(layerOf(instances[j]));
    assert k == i by {
      assert !(k < i);
      assert !(i < k);
    }
  }
}
