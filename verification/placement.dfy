/** Placing objects with the object toolbar (editor/object_toolbar.py,
    `activate`, `cb_map_clicked`, `get_map_clicked_kwargs`, `cb_map_moved`).

    While the page is active and a layer and an object are selected, moving
    the mouse over the map shows a preview instance of the object on the
    hovered cell, and a left click replaces whatever stands on the cell by
    one instance of the object; a right click only clears the cell. The
    toolbar remembers the preview instance and the cell it stands on. */
module Placement {
  import opened Py
  import opened Scene
  import opened EditorScene
  import opened ObjectToolbar

  /** The toolbar's two map callbacks and its keyword-argument factory. */
  datatype ToolbarCallback = MapClicked | MapMoved

  datatype KwargsFactory = MapClickedKwargs

  type ToolbarListener = Listener<ToolbarCallback, KwargsFactory>

  /** `get_map_clicked_kwargs()["layer"]`: the layer selected in the combo
      box, read when a press is dispatched. */
  function KwargsLayer(t: Toolbar): KwargsFactory -> Option<string>
  {
    (k: KwargsFactory) => t.selectedLayer
  }

  /** While no layer is selected, a press calls none of the callbacks whose
      factory is the toolbar's. */
  lemma {:induction false} NoLayerNoCalls(regs: seq<Registration<ToolbarCallback, KwargsFactory>>, t: Toolbar)
    requires forall i | 0 <= i < |regs| :: regs[i].kwargs.Some?
    requires t.selectedLayer.None?
    ensures Called(regs, KwargsLayer(t)) == []
    decreases |regs|
  {
    if |regs| > 0 {
      NoLayerNoCalls(regs[..|regs| - 1], t);
    }
  }

  const PressedEntry: Registration<ToolbarCallback, KwargsFactory> := Registration(MapClicked, Some(MapClickedKwargs))
  const MovedEntry: Registration<ToolbarCallback, KwargsFactory> := Registration(MapMoved, Some(MapClickedKwargs))

  /** `activate`: the page becomes active, then the click callback is
      registered for presses and drags and the move callback for moves, all
      with the toolbar's factory. The first type the listener does not know
      raises `RuntimeError`; the page stays active and the registrations
      made before remain. */
  function Activate(t: Toolbar, l: ToolbarListener): (o: Outcome<(Toolbar, ToolbarListener)>)
    ensures o.state.0 == t.(isActive := true)
    ensures o.raised.None? <==> {MousePressed, "mouse_dragged", "mouse_moved"} <= l.callbacks.Keys
    ensures MousePressed !in l.callbacks ==> o == Fail((t.(isActive := true), l), UnknownTypeError(MousePressed))
    ensures MousePressed in l.callbacks && "mouse_dragged" !in l.callbacks ==>
      && o.raised == Some(UnknownTypeError("mouse_dragged"))
      && o.state.1.callbacks == l.callbacks[MousePressed := l.callbacks[MousePressed] + [PressedEntry]]
    ensures o.raised.None? ==>
      && o.state.1.callbacks.Keys == l.callbacks.Keys
      && o.state.1.callbacks[MousePressed] == l.callbacks[MousePressed] + [PressedEntry]
      && o.state.1.callbacks["mouse_dragged"] == l.callbacks["mouse_dragged"] + [PressedEntry]
      && o.state.1.callbacks["mouse_moved"] == l.callbacks["mouse_moved"] + [MovedEntry]
  {
    var t1 := t.(isActive := true);
    var r1 := AddCallback(l, MousePressed, MapClicked, Some(MapClickedKwargs));
    if r1.Raise? then Fail((t1, l), r1.error)
    else
      var r2 := AddCallback(r1.value, "mouse_dragged", MapClicked, Some(MapClickedKwargs));
      if r2.Raise? then Fail((t1, r1.value), r2.error)
      else
        var r3 := AddCallback(r2.value, "mouse_moved", MapMoved, Some(MapClickedKwargs));
        if r3.Raise? then Fail((t1, r2.value), r3.error)
        else
          Done((t1, r3.value))
  }

  /** The editor's own listener knows presses only, so activating the page
      registers the click callback and then raises. */
  lemma ActivateOnEditorListener(t: Toolbar)
    ensures var o := Activate(t, NewListener());
      && o.raised == Some(UnknownTypeError("mouse_dragged"))
      && o.state.0.isActive
      && o.state.1.callbacks == map[MousePressed := [PressedEntry]]
  {
  }

  /** With a listener that knows drags and moves, activation succeeds and
      each type holds exactly the toolbar's callback. */
  lemma ActivateOnMotionListener(t: Toolbar)
    ensures var o := Activate(t, NewMotionListener());
      && o.raised.None? && o.state.0.isActive
      && o.state.1.callbacks == map[MousePressed := [PressedEntry], "mouse_dragged" := [PressedEntry], "mouse_moved" := [MovedEntry]]
  {
    var o := Activate(t, NewMotionListener());
    assert o.state.1.callbacks.Keys == {MousePressed, "mouse_dragged", "mouse_moved"};
  }

  /** The positional arguments each callback takes: `cb_map_clicked` the
      map point and the button, `cb_map_moved` the map point. */
  function ToolbarArity(f: ToolbarCallback): nat
  {
    match f
    case MapClicked => PressArgumentsIntended
    case MapMoved => 1
  }

  /** While no layer is selected, a press runs through every callback with
      the toolbar's factory, however many arguments it passes. */
  lemma {:induction false} NoLayerReachesAll(regs: seq<Registration<ToolbarCallback, KwargsFactory>>, t: Toolbar, argc: nat)
    requires forall i | 0 <= i < |regs| :: regs[i].kwargs.Some?
    requires t.selectedLayer.None?
    ensures Reach(regs, KwargsLayer(t), ToolbarArity, argc) == |regs|
    decreases |regs|
  {
    if |regs| > 0 {
      NoLayerReachesAll(regs[1..], t, argc);
    }
  }

  /** As written, once a layer is selected, a left press on the listener
      the toolbar activated stops at its click callback with `TypeError`. */
  lemma ToolbarPressAsWritten(t: Toolbar)
    requires t.selectedLayer.Some?
    ensures var regs := Activate(t, NewMotionListener()).state.1.callbacks[MousePressed];
      && Reach(regs, KwargsLayer(t), ToolbarArity, PressArgumentsAsWritten) == 0
      && BlockError(regs[0]) == TypeError
  {
    ActivateOnMotionListener(t);
  }

  /** Passing the button too, the same press completes: the click callback
      is called on the selected layer, or not at all when none is. */
  lemma ToolbarPressWithButton(t: Toolbar)
    ensures var regs := Activate(t, NewMotionListener()).state.1.callbacks[MousePressed];
      && Reach(regs, KwargsLayer(t), ToolbarArity, PressArgumentsIntended) == |regs|
      && Called(regs, KwargsLayer(t)) == (if t.selectedLayer.Some? then [(MapClicked, t.selectedLayer.value)] else [])
  {
    ActivateOnMotionListener(t);
    var regs := Activate(t, NewMotionListener()).state.1.callbacks[MousePressed];
    assert regs[..0] == [];
  }

  /** The toolbar ignores map events until the page is active and a layer
      and an object are selected. */
  predicate Placing(t: Toolbar)
  {
    t.isActive && t.selectedLayer.Some? && t.selected.Some?
  }

  function SelectedObject(t: Toolbar): ObjectRef
    requires t.selected.Some?
  {
    ObjectRef(t.selected.value.0, t.selected.value.1)
  }

  /** `cb_map_clicked`. The preview is forgotten first, whatever follows.
      Without a selected layer, on an inactive page, for the middle button,
      or for the left button with no object selected, nothing else happens.
      Otherwise every instance on the cell is deleted; a right click stops
      there and any other click creates one instance of the selected
      object on the cell (with no object selected, looking the object up
      raises `TypeError`). */
  function CbMapClicked(t: Toolbar, w: World, coords: Coords, button: Button): (o: Outcome<(Toolbar, World)>)
    ensures o.state.0 == t.(lastInstance := None, lastMousePos := None)
    ensures t.selectedLayer.None? || !t.isActive || button == MiddleButton || (t.selected.None? && button == LeftButton) ==>
      o == Done((o.state.0, w))
    ensures o.raised.Some? ==> o.raised.value == TypeError && button == OtherButton && t.selected.None?
    ensures t.selectedLayer.Some? && t.isActive && button == RightButton ==>
      && o.raised.None?
      && o.state.1.instances.Keys == w.instances.Keys - InstancesAt(w, t.selectedLayer.value, coords)
      && forall h | h in o.state.1.instances :: o.state.1.instances[h] == w.instances[h]
    ensures Placing(t) && (button == LeftButton || button == OtherButton) && w.Valid() ==>
      && o.raised.None? && o.state.1.Valid()
      && (exists h :: InstancesAt(o.state.1, t.selectedLayer.value, coords) == {h}
                      && o.state.1.instances[h] == Instance(t.selectedLayer.value, SelectedObject(t), coords, "", 0))
      && forall h | h in w.instances && h !in InstancesAt(w, t.selectedLayer.value, coords) ::
           h in o.state.1.instances && o.state.1.instances[h] == w.instances[h]
  {
    var t1 := t.(lastInstance := None, lastMousePos := None);
    if t.selectedLayer.None? || !t.isActive then Done((t1, w))
    else if button == MiddleButton then Done((t1, w))
    else if t.selected.None? && button == LeftButton then Done((t1, w))
    else
      var layer := t.selectedLayer.value;
      var cleared := DeleteAll(w, InstancesAt(w, layer, coords));
      assert w.Valid() ==> cleared.Valid();
      if button == RightButton then Done((t1, cleared))
      else if t.selected.None? then
        assert button.OtherButton?;
        Fail((t1, cleared), TypeError)
      else
        var (w2, h) := Create(cleared, layer, SelectedObject(t), coords, "");
        assert w.Valid() ==> InstancesAt(w2, layer, coords) == {h};
        Done((t1, w2))
  }

  /** `cb_map_moved`. Outside placing mode, or over the cell of the last
      recorded position, nothing happens. Otherwise the previous preview
      instance (when a position was recorded) is deleted, one instance of
      the selected object is created on the new cell, and both the cell and
      the instance are recorded. */
  function CbMapMoved(t: Toolbar, w: World, coords: Coords): (r: (Toolbar, World))
    ensures !Placing(t) || t.lastMousePos == Some(coords) ==> r == (t, w)
    ensures Placing(t) && t.lastMousePos != Some(coords) ==>
      && r.0 == t.(lastMousePos := Some(coords), lastInstance := r.0.lastInstance)
      && r.0.lastInstance.Some? && r.0.lastInstance.value in r.1.instances
      && r.1.instances[r.0.lastInstance.value] == Instance(t.selectedLayer.value, SelectedObject(t), coords, "", 0)
    ensures Placing(t) && t.lastMousePos != Some(coords) && w.Valid() ==>
      var previous := if t.lastMousePos.Some? && t.lastInstance.Some? then {t.lastInstance.value} else {};
      && r.1.Valid() && r.0.lastInstance.value !in w.instances
      && r.1.instances.Keys == w.instances.Keys - previous + {r.0.lastInstance.value}
      && forall h | h in w.instances && h !in previous :: r.1.instances[h] == w.instances[h]
  {
    if !Placing(t) then (t, w)
    else if t.lastMousePos == Some(coords) then (t, w)
    else
      var w1 := if t.lastMousePos.Some? && t.lastInstance.Some? then Delete(w, t.lastInstance.value) else w;
      var (w2, h) := Create(w1, t.selectedLayer.value, SelectedObject(t), coords, "");
      (t.(lastMousePos := Some(coords), lastInstance := Some(h)), w2)
  }

  /** Moving over two cells in a row leaves one preview instance, on the
      second cell, and the rest of the scene as it was. */
  lemma {:induction false} PreviewFollowsMouse(t: Toolbar, w: World, a: Coords, b: Coords)
    requires Placing(t) && t.lastMousePos.None? && w.Valid() && a != b
    ensures var (t1, w1) := CbMapMoved(t, w, a);
      var (t2, w2) := CbMapMoved(t1, w1, b);
      && t2.lastInstance.Some? && t2.lastMousePos == Some(b)
      && t2.lastInstance.value !in w.instances
      && w2.instances == w.instances[t2.lastInstance.value := Instance(t.selectedLayer.value, SelectedObject(t), b, "", 0)]
  {
    var (t1, w1) := CbMapMoved(t, w, a);
    var (t2, w2) := CbMapMoved(t1, w1, b);
    var h1 := t1.lastInstance.value;
    var h2 := t2.lastInstance.value;
    assert w1.instances.Keys == w.instances.Keys + {h1};
    assert w2.instances.Keys == w1.instances.Keys - {h1} + {h2};
    assert h2 !in w1.instances;
    assert w2.instances.Keys == w.instances.Keys + {h2};
  }

  /** Clicking with the left button where the preview stands leaves exactly
      one instance of the selected object on that cell and no preview. */
  lemma ClickOnPreviewPlacesOne(t: Toolbar, w: World, a: Coords)
    requires Placing(t) && w.Valid() && t.lastMousePos != Some(a)
    ensures var (t1, w1) := CbMapMoved(t, w, a);
      var o := CbMapClicked(t1, w1, a, LeftButton);
      && o.raised.None? && o.state.0.lastInstance.None? && o.state.0.lastMousePos.None?
      && exists h :: InstancesAt(o.state.1, t.selectedLayer.value, a) == {h}
           && o.state.1.instances[h] == Instance(t.selectedLayer.value, SelectedObject(t), a, "", 0)
  {
  }
}
