/** Undoable instance commands (editor/undo_editor.py).

    `UndoCreateInstance` and `UndoRemoveInstance` are mutable objects: they
    record the instance they last created. Here a command is a value, and
    `Redo`/`Undo` return the command as it is after the call together with
    the new scene. The editor's `create_instance`/`delete_instance` are
    not part of this model: they are taken to create an instance on the
    stored layer with the given object, coordinates and identifier, and to
    delete the given instance. A Python `None` identifier is the empty
    string. */
module UndoEditor {
  import opened Py
  import opened Scene

  /** Both commands carry this description; the remove command reuses the
      create command's text. */
  const CreateDescription: string := "Create instance"

  datatype Command =
    | CreateInstance(layer: string, coords: Coords, obj: ObjectRef, rotation: int,
                     identifier: string, instance: Option<Handle>)
    | RemoveInstance(instance': Handle, layer: string, coords: Coords, obj: ObjectRef,
                     rotation: int, identifier: string)
  {
    function Description(): (d: string)
      ensures d == CreateDescription
    {
      CreateDescription
    }
  }

  /** `UndoCreateInstance(editor, layer, coords, object, rotation, identifier)`:
      nothing is created until the first `redo`. */
  function NewCreate(layer: string, coords: Coords, obj: ObjectRef, rotation: int, identifier: string): (c: Command)
    ensures c.CreateInstance? && c.instance.None?
    ensures c.layer == layer && c.coords == coords && c.obj == obj
    ensures c.rotation == rotation && c.identifier == identifier
  {
    CreateInstance(layer, coords, obj, rotation, identifier, None)
  }

  /** `UndoRemoveInstance(editor, instance)`: snapshots the instance's layer,
      exact coordinates, object, rotation and identifier. */
  function NewRemove(s: World, h: Handle): (c: Command)
    requires h in s.instances
    ensures c.RemoveInstance? && c.instance' == h
    ensures Instance(c.layer, c.obj, c.coords, c.identifier, c.rotation) == s.instances[h]
  {
    var i := s.instances[h];
    RemoveInstance(h, i.layer, i.coords, i.obj, i.rotation, i.id)
  }

  /** Creates an instance from the command's stored data and sets its rotation. */
  function Recreate(c: Command, s: World): (r: (World, Handle))
    ensures r.1 in r.0.instances
    ensures r.0.instances[r.1] == Instance(c.layer, c.obj, c.coords, c.identifier, c.rotation)
    ensures s.Valid() ==> r.0.Valid() && r.1 !in s.instances
    ensures s.Valid() ==> r.0.instances == s.instances[r.1 := r.0.instances[r.1]]
  {
    var (s1, h) := Scene.Create(s, c.layer, c.obj, c.coords, c.identifier);
    (SetRotation(s1, h, c.rotation), h)
  }

  /** `redo`: the create command creates and records one instance; the
      remove command deletes the instance it currently records. */
  function Redo(c: Command, s: World): (r: (Command, World))
    ensures c.CreateInstance? ==>
      && r.0.CreateInstance? && r.0.instance.Some? && r.0 == c.(instance := r.0.instance)
      && r.0.instance.value in r.1.instances
      && r.1.instances[r.0.instance.value] == Instance(c.layer, c.obj, c.coords, c.identifier, c.rotation)
      && (s.Valid() ==>
            && r.1.Valid() && r.0.instance.value !in s.instances
            && r.1.instances == s.instances[r.0.instance.value := r.1.instances[r.0.instance.value]])
    ensures c.RemoveInstance? ==>
      r.0 == c && r.1.instances == s.instances - {c.instance'} && (s.Valid() ==> r.1.Valid())
  {
    match c
    case CreateInstance(_, _, _, _, _, _) =>
      var (s', h) := Recreate(c, s);
      (c.(instance := Some(h)), s')
    case RemoveInstance(h, _, _, _, _, _) =>
      (c, Delete(s, h))
  }

  /** `undo`: the create command deletes exactly the instance it recorded and
      forgets it; the remove command recreates an instance from its snapshot
      and records the new instance. */
  function Undo(c: Command, s: World): (r: (Command, World))
    ensures c.CreateInstance? ==>
      && r.0 == c.(instance := None)
      && r.1.instances == (if c.instance.Some? then s.instances - {c.instance.value} else s.instances)
    ensures c.RemoveInstance? ==>
      && r.0.RemoveInstance? && r.0 == c.(instance' := r.0.instance')
      && r.0.instance' in r.1.instances
      && r.1.instances[r.0.instance'] == Instance(c.layer, c.obj, c.coords, c.identifier, c.rotation)
      && (s.Valid() ==>
            && r.1.Valid() && r.0.instance' !in s.instances
            && r.1.instances == s.instances[r.0.instance' := r.1.instances[r.0.instance']])
  {
    match c
    case CreateInstance(_, _, _, _, _, h) =>
      (c.(instance := None), if h.Some? then Delete(s, h.value) else s)
    case RemoveInstance(_, _, _, _, _, _) =>
      var (s', h) := Recreate(c, s);
      (c.(instance' := h), s')
  }

  /** Creating and then undoing the creation leaves the layer's instances as
      they were and the command as it was built. */
  lemma CreateRedoUndoRestores(c: Command, s: World)
    requires c.CreateInstance? && c.instance.None? && s.Valid()
    ensures var (c1, s1) := Redo(c, s);
      var (c2, s2) := Undo(c1, s1);
      c2 == c && s2.instances == s.instances
  {
    var (c1, s1) := Redo(c, s);
    var h := c1.instance.value;
    assert s1.instances == s.instances[h := s1.instances[h]];
    assert h !in s.instances;
    assert s1.instances - {h} == s.instances;
  }

  /** A redo after an undo recreates an instance with the same object,
      layer, coordinates, identifier and rotation as the first redo did. */
  lemma CreateRedoAgainSameInstance(c: Command, s: World)
    requires c.CreateInstance?
    ensures var (c1, s1) := Redo(c, s);
      var (c2, s2) := Undo(c1, s1);
      var (c3, s3) := Redo(c2, s2);
      && c1.instance.Some? && c3.instance.Some?
      && s3.instances[c3.instance.value] == s1.instances[c1.instance.value]
  {
  }

  /** Removing, undoing the removal and redoing it: the undo brings back an
      instance equal to the removed one, and the redo removes that recreated
      instance, leaving the layer as after the first removal. */
  lemma RemoveRoundTrip(s: World, h: Handle)
    requires s.Valid() && h in s.instances
    ensures var c := NewRemove(s, h);
      var (c1, s1) := Redo(c, s);
      var (c2, s2) := Undo(c1, s1);
      var (c3, s3) := Redo(c2, s2);
      && s1.instances == s.instances - {h}
      && c2.instance' in s2.instances && s2.instances[c2.instance'] == s.instances[h]
      && s3.instances == s1.instances
  {
    var c := NewRemove(s, h);
    var (c1, s1) := Redo(c, s);
    var (c2, s2) := Undo(c1, s1);
    var h' := c2.instance';
    assert h' !in s1.instances;
    assert s2.instances - {h'} == s1.instances;
  }
}
