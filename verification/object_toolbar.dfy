/** The object toolbar's catalogue (editor/object_toolbar.py, `ObjectToolbar`).

    On a map change the toolbar rescans every object the engine knows,
    parsed from its definition file, into a catalogue keyed by namespace
    and object id, and registers the frame images of atlas animations.
    It then reconciles its preview windows, keyed `"namespace.id"`,
    against the catalogue. Dictionary iteration order is left open, as in
    Python: the methods below make those choices with `:|`.

    Window management, textures and images that are not atlas frames stay
    outside the model; a window is the data the toolbar keeps on it (user
    data, alpha, image property, tooltip). */
module ObjectToolbar {
  import opened Py
  import opened Xml
  import opened ObjectParser
  import opened AtlasLayout
  import opened Sets
  import Scene

  const DefaultAlpha: real := 0.75
  const HighlightAlpha: real := 1.0

  // ---------------------------------------------------------------------
  // What the engine reports

  datatype FifeObject = FifeObject(id: string, filename: string)

  datatype ModelNamespace = ModelNamespace(name: string, objects: seq<FifeObject>)

  /** The engine's namespaces in the order it lists them, what
      `parse_file` yields for each object file (a file that cannot be
      opened is absent), and the pixel width of each atlas texture. */
  datatype Engine = Engine(namespaces: seq<ModelNamespace>,
                           files: map<string, Result<seq<ObjectDef>>>,
                           textureWidth: FsPath -> int)

  // ---------------------------------------------------------------------
  // The catalogue

  /** One object of the catalogue: `{}` for an id that already had a
      window when the scan met it, the directions of each action of an
      animated object, the directions of a static one, or only the
      `static` flag for any other value. */
  datatype ScanEntry =
    | Unscanned
    | Animated(actions: map<string, set<int>>)
    | Still(directions: set<int>)
    | OtherStatic

  type Catalogue = map<string, map<string, ScanEntry>>

  predicate InCatalogue(c: Catalogue, p: (string, string))
  {
    p.0 in c && p.1 in c[p.0]
  }

  /** The directions an action's animation set defines. */
  function DirectionsOf(anim: AnimationSet): set<int>
  {
    match anim
    case Single(_, _, _, dirs) => dirs.Keys
    case Multi(dirs) => dirs.Keys
  }

  /** The window and image name of an object: `".".join([namespace, id])`. */
  function WindowName(p: (string, string)): (n: string)
    ensures n == p.0 + "." + p.1
  {
    assert [p.0, p.1][1..] == [p.1];
    assert JoinWith([p.1], '.') == p.1;
    JoinWith([p.0, p.1], '.')
  }

  /** Two objects whose namespaces hold no dot have different window names. */
  lemma WindowNamesDistinct(p: (string, string), q: (string, string))
    requires '.' !in p.0 && '.' !in q.0
    requires WindowName(p) == WindowName(q)
    ensures p == q
  {
    var s := WindowName(p);
    assert s[..|p.0|] == p.0 && s[|p.0|] == '.';
    assert s[..|q.0|] == q.0 && s[|q.0|] == '.';
    IndexOfIsFirst(s, '.', |p.0|);
    IndexOfIsFirst(s, '.', |q.0|);
    assert p.1 == s[|p.0| + 1..];
  }

  // ---------------------------------------------------------------------
  // Scanning one action

  datatype ActionScan = ActionScan(directions: set<int>, frames: seq<Frame>)

  /** One action of an animated object: an atlas ("single") action lays out
      its frames; every direction of a "multi" action must carry a delay,
      which only animations read from their own file have. */
  function ScanAction(name: string, action: string, anim: AnimationSet, textureWidth: FsPath -> int): (r: Result<ActionScan>)
    ensures r.Ok? ==> r.value.directions == DirectionsOf(anim)
    ensures anim.Multi? ==> (r.Ok? <==> forall d | d in anim.directions :: anim.directions[d].delay.Some?)
    ensures anim.Multi? ==> (r.Ok? ==> r.value.frames == []) && (r.Raise? ==> r.error == KeyError("delay"))
    ensures anim.Single? ==> (r.Ok? <==> AtlasFrames(name, action, anim, textureWidth(anim.image)).Ok?)
    ensures anim.Single? && r.Ok? ==> r.value.frames == AtlasFrames(name, action, anim, textureWidth(anim.image)).value
    ensures r.Raise? ==> r.error.ValueError? || r.error == ZeroDivisionError || r.error == KeyError("delay")
  {
    match anim
    case Single(image, _, _, dirs) =>
      var frames :- AtlasFrames(name, action, anim, textureWidth(image));
      Ok(ActionScan(dirs.Keys, frames))
    case Multi(dirs) =>
      if exists d | d in dirs :: dirs[d].delay.None? then Raise(KeyError("delay"))
      else Ok(ActionScan(dirs.Keys, []))
  }

  /** `defined` keeps every image it had, with the same area. */
  ghost predicate Extends(defined': map<string, Rect>, defined: map<string, Rect>)
  {
    forall n | n in defined :: n in defined' && defined'[n] == defined[n]
  }

  /** Registers each frame under its name unless an image of that name is
      already defined. */
  function Define(defined: map<string, Rect>, frames: seq<Frame>): (r: map<string, Rect>)
    ensures Extends(r, defined)
    ensures forall i | 0 <= i < |frames| :: frames[i].name in r
    ensures forall n | n in r && n !in defined :: exists i | 0 <= i < |frames| :: frames[i] == Frame(n, r[n])
    decreases |frames|
  {
    if |frames| == 0 then defined
    else
      var f := frames[0];
      var next := if f.name in defined then defined else defined[f.name := f.area];
      var r := Define(next, frames[1..]);
      assert forall n | n in r && n !in defined && n in next :: frames[0] == Frame(n, r[n]);
      assert forall i | 0 < i < |frames| :: frames[i] == frames[1..][i - 1];
      r
  }

  /** Every action of an animated object, in whatever order the actions'
      dictionary yields them. The first action whose scan raises ends the
      scan with that exception. */
  method ScanActions(name: string, actions: map<string, AnimationSet>, textureWidth: FsPath -> int,
                     defined: map<string, Rect>)
    returns (r: Result<map<string, set<int>>>, defined': map<string, Rect>)
    ensures r.Ok? <==> forall a | a in actions :: ScanAction(name, a, actions[a], textureWidth).Ok?
    ensures r.Raise? ==>
      exists a | a in actions :: ScanAction(name, a, actions[a], textureWidth) == Raise(r.error)
    ensures r.Ok? ==> r.value.Keys == actions.Keys
    ensures r.Ok? ==> forall a | a in actions :: r.value[a] == DirectionsOf(actions[a])
    ensures r.Ok? ==> forall a | a in actions ::
      var frames := ScanAction(name, a, actions[a], textureWidth).value.frames;
      forall i | 0 <= i < |frames| :: frames[i].name in defined'
    ensures Extends(defined', defined)
  {
    var todo := actions.Keys;
    var acc: map<string, set<int>> := map[];
    defined' := defined;
    while todo != {}
      invariant todo <= actions.Keys
      invariant acc.Keys == actions.Keys - todo
      invariant forall a | a in acc :: ScanAction(name, a, actions[a], textureWidth).Ok?
      invariant forall a | a in acc :: acc[a] == DirectionsOf(actions[a])
      invariant forall a | a in acc ::
        var frames := ScanAction(name, a, actions[a], textureWidth).value.frames;
        forall i | 0 <= i < |frames| :: frames[i].name in defined'
      invariant Extends(defined', defined)
      decreases todo
    {
      var a :| a in todo;
      var s := ScanAction(name, a, actions[a], textureWidth);
      if s.Raise? {
        return Raise(s.error), defined';
      }
      defined' := Define(defined', s.value.frames);
      acc := acc[a := s.value.directions];
      todo := todo - {a};
    }
    r := Ok(acc);
  }

  // ---------------------------------------------------------------------
  // Scanning one object and the whole model

  /** The catalogue entry a parsed definition yields: by the `static` flag,
      the directions of every action, the directions of the images, or
      nothing more. */
  ghost predicate EntryOf(def: ObjectDef, e: ScanEntry)
  {
    && "static" in def.attributes && ParseInt(def.attributes["static"]).Ok?
    && var flag := ParseInt(def.attributes["static"]).value;
       && (flag == 0 ==>
             && def.body.Actions? && e.Animated?
             && e.actions.Keys == def.body.actions.Keys
             && forall a | a in e.actions :: e.actions[a] == DirectionsOf(def.body.actions[a]))
       && (flag == 1 ==> def.body.Directions? && e == Still(def.body.images.Keys))
       && (flag != 0 && flag != 1 ==> e == OtherStatic)
  }

  /** One parsed object definition of a namespace. */
  method ScanObject(ns: string, def: ObjectDef, textureWidth: FsPath -> int, defined: map<string, Rect>)
    returns (r: Result<(string, ScanEntry)>, defined': map<string, Rect>)
    ensures "id" !in def.attributes ==> r == Raise(KeyError("id"))
    ensures "id" in def.attributes && "static" !in def.attributes ==> r == Raise(KeyError("static"))
    ensures r.Ok? ==> "id" in def.attributes && r.value.0 == def.attributes["id"] && EntryOf(def, r.value.1)
    ensures Extends(defined', defined)
  {
    defined' := defined;
    if "id" !in def.attributes {
      return Raise(KeyError("id")), defined';
    }
    var id := def.attributes["id"];
    if "static" !in def.attributes {
      return Raise(KeyError("static")), defined';
    }
    var flag := ParseInt(def.attributes["static"]);
    if flag.Raise? {
      return Raise(flag.error), defined';
    }
    if flag.value == 0 {
      if !def.body.Actions? {
        return Raise(KeyError("actions")), defined';
      }
      var actions;
      actions, defined' := ScanActions(WindowName((ns, id)), def.body.actions, textureWidth, defined);
      if actions.Raise? {
        return Raise(actions.error), defined';
      }
      r := Ok((id, Animated(actions.value)));
    } else if flag.value == 1 {
      if !def.body.Directions? {
        return Raise(KeyError("directions")), defined';
      }
      r := Ok((id, Still(def.body.images.Keys)));
    } else {
      r := Ok((id, OtherStatic));
    }
  }

  function NamespaceNames(nss: seq<ModelNamespace>): (r: set<string>)
    ensures forall i | 0 <= i < |nss| :: nss[i].name in r
    ensures forall n | n in r :: exists i | 0 <= i < |nss| :: nss[i].name == n
  {
    set i | 0 <= i < |nss| :: nss[i].name
  }

  /** A placeholder `{}` is recorded only for an id that is a key of the
      window table. */
  ghost predicate PlaceholdersHaveWindows(c: Catalogue, images: map<string, ImageWindow>)
  {
    forall ns, id | ns in c && id in c[ns] && c[ns][id].Unscanned? :: id in images
  }

  /** The rescan of `update_images`: every namespace of the model, in the
      engine's order; an object id that names a namespace already visited
      is skipped, one that is a key of the window table gets `{}`, any
      other object's file is parsed and each definition in it scanned. */
  method Scan(engine: Engine, images: map<string, ImageWindow>, defined: map<string, Rect>)
    returns (r: Result<Catalogue>, defined': map<string, Rect>)
    ensures r.Ok? ==> r.value.Keys == NamespaceNames(engine.namespaces)
    ensures r.Ok? ==> PlaceholdersHaveWindows(r.value, images)
    ensures Extends(defined', defined)
  {
    var c: Catalogue := map[];
    defined' := defined;
    for i := 0 to |engine.namespaces|
      invariant c.Keys == NamespaceNames(engine.namespaces[..i])
      invariant PlaceholdersHaveWindows(c, images)
      invariant Extends(defined', defined)
    {
      var ns := engine.namespaces[i];
      c := c[ns.name := map[]];
      var entries: map<string, ScanEntry> := map[];
      for j := 0 to |ns.objects|
        invariant forall id | id in entries && entries[id].Unscanned? :: id in images
        invariant Extends(defined', defined)
      {
        var fifeObject := ns.objects[j];
        if fifeObject.id in c {
          continue;
        }
        if fifeObject.id in images {
          entries := entries[fifeObject.id := Unscanned];
          continue;
        }
        if fifeObject.filename !in engine.files {
          return Raise(IOError), defined';
        }
        var parsed := engine.files[fifeObject.filename];
        if parsed.Raise? {
          return Raise(parsed.error), defined';
        }
        for k := 0 to |parsed.value|
          invariant forall id | id in entries && entries[id].Unscanned? :: id in images
          invariant Extends(defined', defined)
        {
          var entry, defined1 := ScanObject(ns.name, parsed.value[k], engine.textureWidth, defined');
          defined' := defined1;
          if entry.Raise? {
            return Raise(entry.error), defined';
          }
          entries := entries[entry.value.0 := entry.value.1];
        }
      }
      c := c[ns.name := entries];
      assert engine.namespaces[..i + 1] == engine.namespaces[..i] + [ns];
    }
    assert engine.namespaces[..|engine.namespaces|] == engine.namespaces;
    r := Ok(c);
  }

  // ---------------------------------------------------------------------
  // Windows

  datatype ImageWindow = ImageWindow(userData: (string, string), alpha: real, image: Option<string>, tooltip: string)

  /** The image a new window shows: frame 0 of some direction of some
      action, the smallest direction of a static object, or none. */
  ghost predicate IsPreview(name: string, e: ScanEntry, image: Option<string>)
  {
    match e
    case Unscanned => false
    case Animated(actions) =>
      exists a, d | a in actions && d in actions[a] :: image == Some(FrameName(name, a, d, 0))
    case Still(ds) => ds != {} && image == Some(JoinWith([name, IntToString(Min(ds))], '.'))
    case OtherStatic => image.None?
  }

  /** A preview can always be chosen: every action has a direction. */
  ghost predicate PreviewTotal(e: ScanEntry)
  {
    match e
    case Unscanned => false
    case Animated(actions) => actions != map[] && forall a | a in actions :: actions[a] != {}
    case Still(ds) => ds != {}
    case OtherStatic => true
  }

  /** The `Image` property a new window gets. The first action and the
      first direction of an animated object are `keys()[0]` of a
      dictionary, whichever Python yields first: the action is any key, and
      the method takes the smallest direction, one of the orders Python may
      yield, while the contract allows any; the static object's direction
      list is sorted. */
  method PreviewImage(name: string, e: ScanEntry) returns (r: Result<Option<string>>)
    ensures r.Ok? ==> IsPreview(name, e, r.value)
    ensures PreviewTotal(e) ==> r.Ok?
    ensures e.Unscanned? ==> r == Raise(KeyError("static"))
    ensures e.Still? ==> (r.Ok? <==> e.directions != {})
    ensures e.Animated? && e.actions == map[] ==> r.Raise?
    ensures r.Raise? ==> r.error == KeyError("static") || r.error == IndexError
  {
    match e
    case Unscanned =>
      r := Raise(KeyError("static"));
    case Animated(actions) =>
      if actions == map[] {
        return Raise(IndexError);
      }
      var a :| a in actions;
      if actions[a] == {} {
        return Raise(IndexError);
      }
      r := Ok(Some(FrameName(name, a, Min(actions[a]), 0)));
    case Still(ds) =>
      if ds == {} {
        return Raise(IndexError);
      }
      r := Ok(Some(JoinWith([name, IntToString(Min(ds))], '.')));
    case OtherStatic =>
      r := Ok(None);
  }

  /** A window the rescan created for an object of the catalogue: keyed by
      the object's name, tooltip the id, default alpha, a preview image. */
  ghost predicate FreshWindow(c: Catalogue, key: string, w: ImageWindow)
  {
    && InCatalogue(c, w.userData) && key == WindowName(w.userData)
    && w.alpha == DefaultAlpha && w.tooltip == w.userData.1
    && IsPreview(key, c[w.userData.0][w.userData.1], w.image)
  }

  function CataloguePairs(c: Catalogue): (r: set<(string, string)>)
    ensures forall p :: p in r <==> InCatalogue(c, p)
  {
    set ns, id | ns in c && id in c[ns] :: (ns, id)
  }

  /** Creates a window for every object of the catalogue whose name has
      none yet; existing windows are reused untouched. A preview that
      cannot be chosen ends the loop with its exception. */
  method CreateWindows(images: map<string, ImageWindow>, c: Catalogue)
    returns (images': map<string, ImageWindow>, raised: Option<PyError>)
    ensures forall k | k in images :: k in images' && images'[k] == images[k]
    ensures forall k | k in images' && k !in images :: FreshWindow(c, k, images'[k])
    ensures raised.None? ==> forall p | InCatalogue(c, p) :: WindowName(p) in images'
    ensures (forall p | InCatalogue(c, p) && WindowName(p) !in images :: PreviewTotal(c[p.0][p.1])) ==> raised.None?
    ensures raised.Some? ==> raised.value == KeyError("static") || raised.value == IndexError
  {
    var todo := CataloguePairs(c);
    images' := images;
    raised := None;
    while todo != {}
      invariant forall p | p in todo :: InCatalogue(c, p)
      invariant forall p | InCatalogue(c, p) && p !in todo :: WindowName(p) in images'
      invariant forall k | k in images :: k in images' && images'[k] == images[k]
      invariant forall k | k in images' && k !in images :: FreshWindow(c, k, images'[k])
      decreases todo
    {
      var p :| p in todo;
      var name := WindowName(p);
      if name !in images' {
        var image := PreviewImage(name, c[p.0][p.1]);
        if image.Raise? {
          return images', Some(image.error);
        }
        images' := images'[name := ImageWindow(p, DefaultAlpha, image.value, p.1)];
      }
      todo := todo - {p};
    }
  }

  /** Eviction as intended: a window whose object left the catalogue is
      detached, destroyed and removed from the table under its own key. */
  function Evict(images: map<string, ImageWindow>, c: Catalogue): (r: map<string, ImageWindow>)
    ensures forall k :: k in r <==> k in images && InCatalogue(c, images[k].userData)
    ensures forall k | k in r :: r[k] == images[k]
  {
    map k | k in images && InCatalogue(c, images[k].userData) :: images[k]
  }

  /** Eviction as the source writes it, at the first window the loop finds
      stale: an unknown namespace raises `KeyError` on the catalogue; then
      the window is destroyed and `images[image_id]` deleted, which raises
      `KeyError` since the table is keyed by `"namespace.id"`, and when
      some key does equal the bare id, the next step of the loop raises
      because the dictionary changed size while being iterated. */
  function EvictAsWritten(images: map<string, ImageWindow>, c: Catalogue, key: string): (r: Outcome<map<string, ImageWindow>>)
    requires key in images && !InCatalogue(c, images[key].userData)
    ensures r.raised.Some?
    ensures images[key].userData.1 !in images ==> r == Fail(images, KeyError(if images[key].userData.0 in c then images[key].userData.1 else images[key].userData.0))
  {
    var (ns, id) := images[key].userData;
    if ns !in c then Fail(images, KeyError(ns))
    else if id !in images then Fail(images, KeyError(id))
    else Fail(images - {id}, RuntimeError("dictionary changed size during iteration"))
  }

  /** A window that goes stale under its usual name `"ns.a"` makes the
      source's rescan raise `KeyError("a")` and stay in the table. */
  lemma StaleWindowBreaksRescan()
    ensures var w := ImageWindow(("ns", "a"), DefaultAlpha, None, "a");
      EvictAsWritten(map["ns.a" := w], map["ns" := map[]], "ns.a") == Fail(map["ns.a" := w], KeyError("a"))
  {
    var w := ImageWindow(("ns", "a"), DefaultAlpha, None, "a");
    assert "a" !in map["ns.a" := w];
  }

  /** Every window is keyed by its object's name, and its namespace holds
      no dot (so that names tell objects apart). */
  ghost predicate WellKeyed(images: map<string, ImageWindow>)
  {
    forall k | k in images :: k == WindowName(images[k].userData) && '.' !in images[k].userData.0
  }

  ghost predicate DotFree(c: Catalogue)
  {
    forall ns | ns in c :: '.' !in ns
  }

  /** After creation and eviction, the windows are exactly one per object
      of the catalogue. */
  lemma {:induction false} ReconciledKeys(before: map<string, ImageWindow>, created: map<string, ImageWindow>, c: Catalogue)
    requires WellKeyed(before) && DotFree(c)
    requires forall k | k in before :: k in created && created[k] == before[k]
    requires forall k | k in created && k !in before :: FreshWindow(c, k, created[k])
    requires forall p | InCatalogue(c, p) :: WindowName(p) in created
    ensures WellKeyed(Evict(created, c))
    ensures forall k :: k in Evict(created, c) <==> exists p | InCatalogue(c, p) :: k == WindowName(p)
  {
    var r := Evict(created, c);
    forall k | k in r
      ensures k == WindowName(r[k].userData) && '.' !in r[k].userData.0
    {
    }
    forall k | exists p | InCatalogue(c, p) :: k == WindowName(p)
      ensures k in r
    {
      var p :| InCatalogue(c, p) && k == WindowName(p);
      var u := created[k].userData;
      if k !in before {
        assert FreshWindow(c, k, created[k]);
      }
      assert k == WindowName(u) && '.' !in u.0;
      WindowNamesDistinct(p, u);
    }
  }

  // ---------------------------------------------------------------------
  // The toolbar

  datatype Toolbar = Toolbar(
    namespaces: Catalogue,
    images: map<string, ImageWindow>,
    definedImages: map<string, Rect>,
    selected: Option<(string, string)>,
    isActive: bool,
    objectsChanged: bool,
    layers: seq<string>,
    selectedLayer: Option<string>,
    lastMousePos: Option<Scene.Coords>,
    lastInstance: Option<Scene.Handle>)

  /** A freshly built toolbar: nothing scanned, no window, no selection,
      inactive, no rescan pending. */
  function NewToolbar(): (t: Toolbar)
    ensures t.namespaces == map[] && t.images == map[] && t.selected.None?
    ensures !t.isActive && !t.objectsChanged && t.lastMousePos.None? && t.lastInstance.None?
  {
    Toolbar(map[], map[], map[], None, false, false, [], None, None, None)
  }

  /** Only the selected object's window is highlighted. */
  ghost predicate HighlightFollowsSelection(t: Toolbar)
  {
    forall k | k in t.images && t.images[k].alpha == HighlightAlpha :: t.selected == Some(t.images[k].userData)
  }

  /** `update_images`, with eviction as intended. An inactive page returns
      at once and keeps its rescan pending; an active one clears the flag
      first, so it stays cleared whatever the rescan raises. */
  method UpdateImages(t: Toolbar, engine: Engine) returns (o: Outcome<Toolbar>)
    ensures !t.isActive ==> o == Done(t)
    ensures t.isActive ==> !o.state.objectsChanged && o.state.isActive
    ensures o.state.selected == t.selected
    ensures Extends(o.state.definedImages, t.definedImages)
    ensures o.raised.Some? ==> forall k | k in t.images :: k in o.state.images && o.state.images[k] == t.images[k]
    ensures o.raised.None? && t.isActive ==>
      && o.state.namespaces.Keys == NamespaceNames(engine.namespaces)
      && (forall p | InCatalogue(o.state.namespaces, p) && DotFree(o.state.namespaces) && WellKeyed(t.images) ::
            WindowName(p) in o.state.images)
      && (forall k | k in o.state.images :: InCatalogue(o.state.namespaces, o.state.images[k].userData))
      && (forall k | k in o.state.images && k in t.images :: o.state.images[k] == t.images[k])
      && (forall k | k in o.state.images && k !in t.images :: FreshWindow(o.state.namespaces, k, o.state.images[k]))
    ensures o.raised.None? && t.isActive && WellKeyed(t.images) && DotFree(o.state.namespaces) ==>
      && WellKeyed(o.state.images)
      && forall k :: k in o.state.images <==> exists p | InCatalogue(o.state.namespaces, p) :: k == WindowName(p)
    ensures HighlightFollowsSelection(t) ==> HighlightFollowsSelection(o.state)
  {
    if !t.isActive {
      return Done(t);
    }
    var t1 := t.(objectsChanged := false, namespaces := map[]);
    var scan, defined := Scan(engine, t.images, t.definedImages);
    t1 := t1.(definedImages := defined);
    if scan.Raise? {
      return Fail(t1, scan.error);
    }
    var c := scan.value;
    t1 := t1.(namespaces := c);
    var created, raised := CreateWindows(t.images, c);
    if raised.Some? {
      return Fail(t1.(images := created), raised.value);
    }
    var kept := Evict(created, c);
    if WellKeyed(t.images) && DotFree(c) {
      ReconciledKeys(t.images, created, c);
    }
    o := Done(t1.(images := kept));
    if WellKeyed(t.images) && DotFree(c) {
      forall p | InCatalogue(c, p)
        ensures WindowName(p) in kept
      {
      }
    }
  }

  /** `update_images` as the source writes it: the same rescan and window
      creation, then the eviction loop of `EvictAsWritten` at whichever
      stale window the dictionary yields first. A run that raises nothing
      therefore removed no window, and left none stale. */
  method UpdateImagesAsWritten(t: Toolbar, engine: Engine) returns (o: Outcome<Toolbar>)
    ensures !t.isActive ==> o == Done(t)
    ensures t.isActive ==> !o.state.objectsChanged
    ensures o.raised.None? ==> forall k | k in t.images :: k in o.state.images && o.state.images[k] == t.images[k]
    ensures o.raised.None? && t.isActive ==>
      forall k | k in o.state.images :: InCatalogue(o.state.namespaces, o.state.images[k].userData)
  {
    if !t.isActive {
      return Done(t);
    }
    var t1 := t.(objectsChanged := false, namespaces := map[]);
    var scan, defined := Scan(engine, t.images, t.definedImages);
    t1 := t1.(definedImages := defined);
    if scan.Raise? {
      return Fail(t1, scan.error);
    }
    var c := scan.value;
    t1 := t1.(namespaces := c);
    var created, raised := CreateWindows(t.images, c);
    if raised.Some? {
      return Fail(t1.(images := created), raised.value);
    }
    var stale := set k | k in created && !InCatalogue(c, created[k].userData);
    if stale == {} {
      forall k | k in created
        ensures InCatalogue(c, created[k].userData)
      {
        assert k !in stale;
      }
      return Done(t1.(images := created));
    }
    var key :| key in stale;
    var evicted := EvictAsWritten(created, c, key);
    o := Outcome(t1.(images := evicted.state), evicted.raised);
  }

  /** `update_contents`: rescans only while a map change is pending. */
  method UpdateContents(t: Toolbar, engine: Engine) returns (o: Outcome<Toolbar>)
    ensures !t.objectsChanged ==> o == Done(t)
    ensures t.objectsChanged && !t.isActive ==> o == Done(t) && o.state.objectsChanged
    ensures t.objectsChanged && t.isActive ==> !o.state.objectsChanged
  {
    if t.objectsChanged {
      o := UpdateImages(t, engine);
    } else {
      o := Done(t);
    }
  }

  /** `cb_map_changed`: marks the catalogue stale and refills the layer
      list from the new map; the combo box loses its selection. An unknown
      map raises `KeyError` after the flag is set. */
  function CbMapChanged(t: Toolbar, maps: map<string, seq<string>>, newMap: string): (o: Outcome<Toolbar>)
    ensures o.state.objectsChanged
    ensures o.raised.None? <==> newMap in maps
    ensures o.raised.Some? ==> o.state == t.(objectsChanged := true) && o.raised.value == KeyError(newMap)
    ensures o.raised.None? ==> o.state.layers == maps[newMap] && o.state.selectedLayer.None?
    ensures o.state.images == t.images && o.state.selected == t.selected
  {
    var t1 := t.(objectsChanged := true);
    if newMap !in maps then Fail(t1, KeyError(newMap))
    else Done(t1.(layers := maps[newMap], selectedLayer := None))
  }

  /** A map change followed by a tick of an active page leaves no rescan
      pending; while the page is inactive the rescan waits. */
  method MapChangeThenTick(t: Toolbar, maps: map<string, seq<string>>, newMap: string, engine: Engine)
    returns (o: Outcome<Toolbar>)
    requires newMap in maps
    ensures t.isActive ==> !o.state.objectsChanged
    ensures !t.isActive ==> o.state.objectsChanged && o.raised.None?
  {
    var changed := CbMapChanged(t, maps, newMap);
    o := UpdateContents(changed.state, engine);
  }

  // ---------------------------------------------------------------------
  // Selection

  /** `image_clicked` as the source writes it: the window table is indexed
      before the membership test, so an unknown name raises `KeyError` and
      the test never fires. The previous selection's window goes back to
      the default alpha, the clicked one is highlighted and selected. */
  function ImageClickedAsWritten(t: Toolbar, name: string): (o: Outcome<Toolbar>)
    ensures name !in t.images ==> o == Fail(t, KeyError(name))
    ensures o.raised.None? ==>
      && name in t.images && o.state.selected == Some(t.images[name].userData)
      && name in o.state.images && o.state.images[name].alpha == HighlightAlpha
  {
    if name !in t.images then Fail(t, KeyError(name))
    else Select(t, name)
  }

  /** `image_clicked` as intended: a name without a window is ignored. */
  function ImageClicked(t: Toolbar, name: string): (o: Outcome<Toolbar>)
    ensures name !in t.images ==> o == Done(t)
    ensures name in t.images ==> o == ImageClickedAsWritten(t, name)
  {
    if name !in t.images then Done(t) else Select(t, name)
  }

  function Select(t: Toolbar, name: string): (o: Outcome<Toolbar>)
    requires name in t.images
    ensures o.raised.Some? ==>
      && t.selected.Some? && WindowName(t.selected.value) !in t.images
      && o == Fail(t, KeyError(WindowName(t.selected.value)))
    ensures o.raised.None? ==>
      && o.state == t.(images := o.state.images, selected := Some(t.images[name].userData))
      && o.state.images.Keys == t.images.Keys
      && o.state.images[name] == t.images[name].(alpha := HighlightAlpha)
      && (forall k | k in t.images && k != name && (t.selected.None? || k != WindowName(t.selected.value)) ::
            o.state.images[k] == t.images[k])
      && (t.selected.Some? && WindowName(t.selected.value) != name ==>
            && WindowName(t.selected.value) in t.images
            && o.state.images[WindowName(t.selected.value)] == t.images[WindowName(t.selected.value)].(alpha := DefaultAlpha))
  {
    var images :=
      if t.selected.None? then Done(t.images)
      else if WindowName(t.selected.value) !in t.images then Fail(t.images, KeyError(WindowName(t.selected.value)))
      else
        var previous := WindowName(t.selected.value);
        Done(t.images[previous := t.images[previous].(alpha := DefaultAlpha)]);
    if images.raised.Some? then Fail(t, images.raised.value)
    else
      var highlighted := images.state[name := images.state[name].(alpha := HighlightAlpha)];
      Done(t.(images := highlighted, selected := Some(t.images[name].userData)))
  }

  /** Clicking a window keeps the highlight on the selection alone. */
  lemma ClickKeepsHighlightOnSelection(t: Toolbar, name: string)
    requires WellKeyed(t.images) && HighlightFollowsSelection(t)
    ensures HighlightFollowsSelection(ImageClicked(t, name).state)
  {
    if name in t.images {
      var o := Select(t, name);
      if o.raised.None? {
        forall k | k in o.state.images && k != name
          ensures o.state.images[k].alpha != HighlightAlpha
        {
          if t.selected.None? || k != WindowName(t.selected.value) {
            assert o.state.images[k] == t.images[k];
          }
        }
      }
    }
  }

  /** `deactivate` as the source writes it: with a selection, it indexes
      the window table by the bare namespace and then the window by the
      object name, so it raises `KeyError` or `TypeError` before clearing
      the selection or the active flag. */
  function DeactivateAsWritten(t: Toolbar): (o: Outcome<Toolbar>)
    ensures t.selected.None? ==> o == Done(t.(isActive := false))
    ensures t.selected.Some? ==> o.raised.Some? && o.state == t
  {
    match t.selected
    case None => Done(t.(isActive := false))
    case Some((ns, _)) =>
      if ns !in t.images then Fail(t, KeyError(ns)) else Fail(t, TypeError)
  }

  /** `deactivate` as intended: the selected object's window returns to
      the default alpha, the selection is cleared and the page inactive. */
  function Deactivate(t: Toolbar): (o: Outcome<Toolbar>)
    ensures t.selected.None? ==> o == DeactivateAsWritten(t)
    ensures t.selected.Some? && WindowName(t.selected.value) !in t.images ==>
      o == Fail(t, KeyError(WindowName(t.selected.value)))
    ensures o.raised.None? ==> !o.state.isActive && o.state.selected.None? && o.state.images.Keys == t.images.Keys
    ensures o.raised.None? && t.selected.Some? ==>
      o.state.images == t.images[WindowName(t.selected.value) := t.images[WindowName(t.selected.value)].(alpha := DefaultAlpha)]
  {
    match t.selected
    case None => Done(t.(isActive := false))
    case Some(p) =>
      var key := WindowName(p);
      if key !in t.images then Fail(t, KeyError(key))
      else Done(t.(images := t.images[key := t.images[key].(alpha := DefaultAlpha)], selected := None, isActive := false))
  }

  /** After a deactivation that succeeds no window is highlighted. */
  lemma DeactivateClearsHighlight(t: Toolbar)
    requires WellKeyed(t.images) && HighlightFollowsSelection(t)
    ensures Deactivate(t).raised.None? ==>
      forall k | k in Deactivate(t).state.images :: Deactivate(t).state.images[k].alpha != HighlightAlpha
  {
    var o := Deactivate(t);
    if o.raised.None? {
      forall k | k in o.state.images
        ensures o.state.images[k].alpha != HighlightAlpha
      {
        if t.selected.None? || k != WindowName(t.selected.value) {
          assert o.state.images[k] == t.images[k];
        }
      }
    }
  }
}
