/** The map/layer layer of the engine, seen abstractly.

    The editor only ever creates instances, deletes them, sets their
    rotation and asks which instances stand on a cell. An instance is known
    by a handle (the identity of the engine object); the handles of live
    instances are always below `nextHandle`, so a new one never collides.
    Layer coordinates, which the engine keeps as doubles, are integers
    here. */
module Scene {

  type Handle = nat

  datatype Coords = Coords(x: int, y: int, z: int)

  /** A catalogue object, named by namespace and identifier. */
  datatype ObjectRef = ObjectRef(namespace: string, name: string)

  datatype Instance = Instance(layer: string, obj: ObjectRef, coords: Coords, id: string, rotation: int)

  datatype World = World(instances: map<Handle, Instance>, nextHandle: Handle)
  {
    ghost predicate Valid()
    {
      forall h :: h in instances ==> h < nextHandle
    }
  }

  const Empty: World := World(map[], 0)

  /** `layer.createInstance(obj, coords, id)`: a new instance with rotation 0. */
  function Create(s: World, layer: string, obj: ObjectRef, coords: Coords, id: string): (r: (World, Handle))
    ensures r.1 in r.0.instances && r.0.instances[r.1] == Instance(layer, obj, coords, id, 0)
    ensures s.Valid() ==> r.1 !in s.instances && r.0.Valid()
    ensures s.Valid() ==> r.0.instances.Keys == s.instances.Keys + {r.1}
    ensures s.Valid() ==> forall h :: h in s.instances ==> r.0.instances[h] == s.instances[h]
  {
    (World(s.instances[s.nextHandle := Instance(layer, obj, coords, id, 0)], s.nextHandle + 1), s.nextHandle)
  }

  /** `layer.deleteInstance(h)`; deleting an instance that is already gone
      leaves the scene unchanged. */
  function Delete(s: World, h: Handle): (r: World)
    ensures h !in r.instances
    ensures r.instances.Keys == s.instances.Keys - {h}
    ensures forall g :: g in r.instances ==> r.instances[g] == s.instances[g]
    ensures s.Valid() ==> r.Valid()
  {
    World(s.instances - {h}, s.nextHandle)
  }

  /** `instance.setRotation(rotation)`. */
  function SetRotation(s: World, h: Handle, rotation: int): (r: World)
    ensures r.instances.Keys == s.instances.Keys
    ensures h in s.instances ==> r.instances[h] == s.instances[h].(rotation := rotation)
    ensures forall g :: g in s.instances && g != h ==> r.instances[g] == s.instances[g]
    ensures s.Valid() ==> r.Valid()
  {
    if h in s.instances then World(s.instances[h := s.instances[h].(rotation := rotation)], s.nextHandle)
    else s
  }

  /** `layer.getInstancesAt(location)`: the instances on `layer` at `coords`. */
  function InstancesAt(s: World, layer: string, coords: Coords): (r: set<Handle>)
    ensures forall h :: h in r <==> h in s.instances && s.instances[h].layer == layer && s.instances[h].coords == coords
  {
    set h | h in s.instances && s.instances[h].layer == layer && s.instances[h].coords == coords
  }

  /** Deletes every instance of a set. */
  function DeleteAll(s: World, hs: set<Handle>): (r: World)
    ensures r.instances.Keys == s.instances.Keys - hs
    ensures forall g :: g in r.instances ==> r.instances[g] == s.instances[g]
    ensures r.nextHandle == s.nextHandle
  {
    World(s.instances - hs, s.nextHandle)
  }
}
