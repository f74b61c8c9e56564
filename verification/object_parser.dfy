/** The object-definition parsers of editor/object_toolbar.py.

    A FIFE object file describes one object: a static object has one image
    per direction, an animated one a table of actions, each holding its
    animations. Images may live in an atlas, described by a preceding
    atlas document; animations may be inline, may come from another file
    (`source`), or may be cut from an atlas image. The Python dictionaries
    the parsers return become records here; every `KeyError`, `ValueError`
    and `IndexError` they can raise is an error result, raised in the same
    order as the Python code reaches it.

    Files an animation refers to are looked up in `files`; a missing file
    raises `IOError`, and `fuel` stands in for Python's recursion limit on
    chains of animation files. */
module ObjectParser {
  import opened Py
  import opened Xml
  import opened Loops

  datatype ImageKind = AtlasImage | LooseImage

  /** One entry of a static object's direction table: the image's own
      attributes, overlaid with its atlas entry's for an atlas image, apart
      from `type` and `source`, which are the other two fields. */
  datatype ImageDef = ImageDef(attrs: map<string, string>, kind: ImageKind, source: FsPath)

  /** `parse_atlas`'s result: the atlas element and its images by source name. */
  datatype AtlasDef = AtlasDef(atlas: Element, images: map<string, Element>)

  /** One animation: `delay` is present only when the animation came from a
      file; `direction` is the third `:`-field of the animation's id. */
  datatype AnimationDef = AnimationDef(delay: Option<string>, direction: string, frames: seq<FsPath>,
                                       xOffset: string, yOffset: string)

  datatype AtlasDirection = AtlasDirection(delay: string, frames: string)

  /** `parse_animations`'s result: one atlas animation ("single") or one
      animation per direction ("multi"). */
  datatype AnimationSet =
    | Single(image: FsPath, width: string, height: string, atlasDirections: map<int, AtlasDirection>)
    | Multi(directions: map<int, AnimationDef>)

  datatype Body = Actions(actions: map<string, AnimationSet>) | Directions(images: map<int, ImageDef>)

  datatype ObjectDef = ObjectDef(attributes: map<string, string>, body: Body)

  type Files = map<FsPath, Element>

  /** The keys an image entry keeps apart from its attribute dictionary. */
  const ReservedKeys: set<string> := {"type", "source"}

  // ---------------------------------------------------------------------
  // parse_atlas

  function AtlasEntry(image: Element): (r: Result<(string, Element)>)
    ensures r.Ok? <==> "source" in image.attrib
    ensures r.Ok? ==> r.value == (image.attrib["source"], image)
  {
    var name :- Attr(image, "source");
    Ok((name, image))
  }

  /** `parse_atlas`: the atlas's images by their `source` attribute; an image
      without one raises `KeyError`, and of two images with the same source
      the later one is kept. */
  function ParseAtlas(element: Element): (r: Result<AtlasDef>)
    ensures r.Ok? <==> forall i | 0 <= i < |FindAll(element, "image")| :: "source" in FindAll(element, "image")[i].attrib
    ensures r.Raise? ==> r.error == KeyError("source")
    ensures r.Ok? ==> r.value.atlas == element
    ensures r.Ok? ==>
      forall name | name in r.value.images ::
        && r.value.images[name] in FindAll(element, "image")
        && r.value.images[name].attrib["source"] == name
    ensures r.Ok? ==>
      var images := FindAll(element, "image");
      && (forall i | 0 <= i < |images| :: images[i].attrib["source"] in r.value.images)
      && (forall i | 0 <= i < |images| && LastWithKey(images, AtlasEntry, i) ::
            r.value.images[images[i].attrib["source"]] == images[i])
  {
    var table :- FoldLast(FindAll(element, "image"), AtlasEntry);
    Ok(AtlasDef(element, table))
  }

  // ---------------------------------------------------------------------
  // parse_object, static branch

  /** Whether the image named `source` is looked up in the atlas. */
  predicate InAtlas(atlas: Option<AtlasDef>, source: string)
  {
    atlas.Some? && source in atlas.value.images
  }

  /** One `<image>` of a static object: its direction and its entry. */
  function ImageEntry(image: Element, root: FsPath, atlas: Option<AtlasDef>): (r: Result<(int, ImageDef)>)
    ensures "source" !in image.attrib ==> r == Raise(KeyError("source"))
    ensures r.Ok? ==>
      var source := image.attrib["source"];
      var def := r.value.1;
      && (def.kind == AtlasImage <==> InAtlas(atlas, source))
      && (InAtlas(atlas, source) ==>
            && "name" in atlas.value.atlas.attrib
            && def.source == Resolve(root, atlas.value.atlas.attrib["name"])
            && def.attrs == (image.attrib + atlas.value.images[source].attrib) - ReservedKeys)
      && (!InAtlas(atlas, source) ==>
            def.source == Resolve(root, source) && def.attrs == image.attrib - ReservedKeys)
      && "direction" in def.attrs && ParseInt(def.attrs["direction"]) == Ok(r.value.0)
  {
    var source :- Attr(image, "source");
    var merged := if InAtlas(atlas, source) then image.attrib + atlas.value.images[source].attrib else image.attrib;
    var path :- if InAtlas(atlas, source) then
                  var name :- Attr(atlas.value.atlas, "name");
                  Ok(Resolve(root, name))
                else Ok(Resolve(root, source));
    var kind := if InAtlas(atlas, source) then AtlasImage else LooseImage;
    if "direction" !in merged then Raise(KeyError("direction"))
    else
      var direction :- ParseInt(merged["direction"]);
      Ok((direction, ImageDef(merged - ReservedKeys, kind, path)))
  }

  /** Overlaying: an attribute the atlas entry also gives takes the atlas's
      value, every other attribute keeps the image's own. */
  lemma AtlasAttributesOverride(image: Element, root: FsPath, atlas: Option<AtlasDef>)
    requires ImageEntry(image, root, atlas).Ok?
    requires InAtlas(atlas, image.attrib["source"])
    ensures var def := ImageEntry(image, root, atlas).value.1;
      var entry := atlas.value.images[image.attrib["source"]].attrib;
      && (forall k | k in entry && k !in ReservedKeys :: k in def.attrs && def.attrs[k] == entry[k])
      && (forall k | k in image.attrib && k !in entry && k !in ReservedKeys :: k in def.attrs && def.attrs[k] == image.attrib[k])
      && (forall k | k in def.attrs :: k in entry || k in image.attrib)
  {
  }

  /** The direction table of a static object, the later of two images with
      the same direction winning; the first image whose entry raises ends
      the loop with that exception. */
  function ParseImages(images: seq<Element>, root: FsPath, atlas: Option<AtlasDef>): (r: Result<map<int, ImageDef>>)
    ensures r.Ok? <==> forall i | 0 <= i < |images| :: ImageEntry(images[i], root, atlas).Ok?
    ensures r.Raise? ==>
      exists i | 0 <= i < |images| ::
        && ImageEntry(images[i], root, atlas).Raise? && r.error == ImageEntry(images[i], root, atlas).error
        && forall j | 0 <= j < i :: ImageEntry(images[j], root, atlas).Ok?
    ensures r.Ok? ==> forall i | 0 <= i < |images| :: ImageEntry(images[i], root, atlas).value.0 in r.value
    ensures r.Ok? ==>
      forall d | d in r.value :: exists i | 0 <= i < |images| :: ImageEntry(images[i], root, atlas).value == (d, r.value[d])
    ensures r.Ok? ==>
      forall i | 0 <= i < |images| && LastWithKey(images, (image: Element) => ImageEntry(image, root, atlas), i) ::
        r.value[ImageEntry(images[i], root, atlas).value.0] == ImageEntry(images[i], root, atlas).value.1
  {
    FoldLast(images, (image: Element) => ImageEntry(image, root, atlas))
  }

  // ---------------------------------------------------------------------
  // parse_animation, parse_animation_atlas, parse_animations, parse_actions

  function FrameSource(root: FsPath): Element -> Result<FsPath>
  {
    (frame: Element) => var s :- Attr(frame, "source"); Ok(Resolve(root, s))
  }

  /** `parse_animation`: an animation with a `source` attribute is read from
      that file, relative to `root`, and parsed relative to the file's
      directory; the file's `delay` is kept unless the file itself refers
      on to another one, whose delay then wins. */
  function ParseAnimation(animation: Element, root: FsPath, files: Files, fuel: nat): (r: Result<AnimationDef>)
    ensures "source" !in animation.attrib ==>
      && r.Ok? == (&& (forall i | 0 <= i < |FindAll(animation, "frame")| :: "source" in FindAll(animation, "frame")[i].attrib)
                   && "id" in animation.attrib && |Split(animation.attrib["id"], ':')| >= 3
                   && "x_offset" in animation.attrib && "y_offset" in animation.attrib)
      && (r.Ok? ==>
            && r.value.delay.None?
            && r.value.direction == Split(animation.attrib["id"], ':')[2]
            && |r.value.frames| == |FindAll(animation, "frame")|
            && (forall i | 0 <= i < |r.value.frames| ::
                  r.value.frames[i] == Resolve(root, FindAll(animation, "frame")[i].attrib["source"]))
            && r.value.xOffset == animation.attrib["x_offset"]
            && r.value.yOffset == animation.attrib["y_offset"])
    ensures "source" in animation.attrib ==>
      var file := Join(root, animation.attrib["source"]);
      && (file !in files ==> r == Raise(IOError))
      && (file in files && "delay" !in files[file].attrib ==> r == Raise(KeyError("delay")))
      && (file in files && "delay" in files[file].attrib && fuel == 0 ==> r == Raise(RecursionError))
      && (r.Ok? ==> r.value.delay.Some?)
    decreases fuel
  {
    if "source" in animation.attrib then
      var file := Join(root, animation.attrib["source"]);
      if file !in files then Raise(IOError)
      else
        var doc := files[file];
        var delay :- Attr(doc, "delay");
        if fuel == 0 then Raise(RecursionError)
        else
          var inner :- ParseAnimation(doc, DirName(file), files, fuel - 1);
          Ok(inner.(delay := if inner.delay.Some? then inner.delay else Some(delay)))
    else
      var frames :- MapAll(FindAll(animation, "frame"), FrameSource(root));
      var id :- Attr(animation, "id");
      var fields := Split(id, ':');
      if |fields| < 3 then Raise(IndexError)
      else
        var xOffset :- Attr(animation, "x_offset");
        var yOffset :- Attr(animation, "y_offset");
        Ok(AnimationDef(None, fields[2], frames, xOffset, yOffset))
  }

  /** A file-based animation whose file holds the animation inline takes
      its delay from that file and everything else from the inline
      definition, read relative to the file's directory. */
  lemma SourcedAnimationDelay(animation: Element, root: FsPath, files: Files, fuel: nat)
    requires "source" in animation.attrib
    requires ParseAnimation(animation, root, files, fuel).Ok?
    ensures var file := Join(root, animation.attrib["source"]);
      && file in files && fuel >= 1
      && ("source" !in files[file].attrib ==>
            ParseAnimation(animation, root, files, fuel).value
              == ParseAnimation(files[file], DirName(file), files, fuel - 1).value.(delay := Some(files[file].attrib["delay"])))
      && ("source" in files[file].attrib ==>
            ParseAnimation(animation, root, files, fuel).value
              == ParseAnimation(files[file], DirName(file), files, fuel - 1).value)
  {
  }

  /** The id's third field: "a:b:c" with two plain leading fields. */
  lemma {:induction false} SplitThirdField(p: string, q: string, c: string)
    requires ':' !in p && ':' !in q
    ensures |Split(p + ":" + q + ":" + c, ':')| >= 3
    ensures Split(p + ":" + q + ":" + c, ':')[..2] == [p, q]
    ensures Split(p + ":" + q + ":" + c, ':')[2] == Split(c, ':')[0]
  {
    var s := p + ":" + q + ":" + c;
    assert IndexOf(s, ':') == |p| by {
      assert s[|p|] == ':';
      assert s[..|p|] == p;
      IndexOfIsFirst(s, ':', |p|);
    }
    var t := s[|p| + 1..];
    assert t == q + ":" + c;
    assert IndexOf(t, ':') == |q| by {
      assert t[|q|] == ':';
      assert t[..|q|] == q;
      IndexOfIsFirst(t, ':', |q|);
    }
    assert t[|q| + 1..] == c;
    assert s[..|p|] == p;
    assert t[..|q|] == q;
  }

  lemma IndexOfIsFirst(s: string, c: char, i: nat)
    requires i < |s| && s[i] == c && c !in s[..i]
    ensures IndexOf(s, c) == i
  {
  }

  function AtlasDirectionEntry(direction: Element): (r: Result<(int, AtlasDirection)>)
    ensures r.Ok? ==>
      && "dir" in direction.attrib && ParseInt(direction.attrib["dir"]) == Ok(r.value.0)
      && "delay" in direction.attrib && "frames" in direction.attrib
      && r.value.1 == AtlasDirection(direction.attrib["delay"], direction.attrib["frames"])
    ensures r.Ok? <==>
      && "dir" in direction.attrib && ParseInt(direction.attrib["dir"]).Ok?
      && "delay" in direction.attrib && "frames" in direction.attrib
  {
    var dirText :- Attr(direction, "dir");
    var dir :- ParseInt(dirText);
    var delay :- Attr(direction, "delay");
    var frames :- Attr(direction, "frames");
    Ok((dir, AtlasDirection(delay, frames)))
  }

  /** `parse_animation_atlas`: the atlas image, its frame size and one
      delay/frames pair per direction. */
  function ParseAnimationAtlas(animation: Element, root: FsPath): (r: Result<AnimationSet>)
    ensures r.Ok? ==> r.value.Single?
    ensures r.Ok? ==>
      && "atlas" in animation.attrib && r.value.image == Resolve(root, animation.attrib["atlas"])
      && "width" in animation.attrib && r.value.width == animation.attrib["width"]
      && "height" in animation.attrib && r.value.height == animation.attrib["height"]
    ensures r.Ok? ==>
      var ds := FindAll(animation, "direction");
      && (forall i | 0 <= i < |ds| :: AtlasDirectionEntry(ds[i]).Ok? && AtlasDirectionEntry(ds[i]).value.0 in r.value.atlasDirections)
      && (forall i | 0 <= i < |ds| && LastWithKey(ds, AtlasDirectionEntry, i) ::
            r.value.atlasDirections[AtlasDirectionEntry(ds[i]).value.0] == AtlasDirectionEntry(ds[i]).value.1)
    ensures r.Ok? ==>
      forall d | d in r.value.atlasDirections ::
        exists i | 0 <= i < |FindAll(animation, "direction")| ::
          AtlasDirectionEntry(FindAll(animation, "direction")[i]).value == (d, r.value.atlasDirections[d])
    ensures r.Ok? <==>
      && "atlas" in animation.attrib && "width" in animation.attrib && "height" in animation.attrib
      && forall i | 0 <= i < |FindAll(animation, "direction")| :: AtlasDirectionEntry(FindAll(animation, "direction")[i]).Ok?
    ensures "atlas" !in animation.attrib ==> r == Raise(KeyError("atlas"))
    ensures "atlas" in animation.attrib && "width" !in animation.attrib ==> r == Raise(KeyError("width"))
    ensures "atlas" in animation.attrib && "width" in animation.attrib && "height" !in animation.attrib ==>
      r == Raise(KeyError("height"))
    ensures "atlas" in animation.attrib && "width" in animation.attrib && "height" in animation.attrib && r.Raise? ==>
      var ds := FindAll(animation, "direction");
      exists i | 0 <= i < |ds| ::
        && AtlasDirectionEntry(ds[i]).Raise? && r.error == AtlasDirectionEntry(ds[i]).error
        && forall j | 0 <= j < i :: AtlasDirectionEntry(ds[j]).Ok?
  {
    var atlas :- Attr(animation, "atlas");
    var width :- Attr(animation, "width");
    var height :- Attr(animation, "height");
    var dirs :- FoldLast(FindAll(animation, "direction"), AtlasDirectionEntry);
    Ok(Single(Resolve(root, atlas), width, height, dirs))
  }

  /** One multi-animation entry: the parsed animation under its direction. */
  function AnimationEntry(animation: Element, root: FsPath, files: Files, fuel: nat): (r: Result<(int, AnimationDef)>)
    ensures r.Ok? <==>
      ParseAnimation(animation, root, files, fuel).Ok? && ParseInt(ParseAnimation(animation, root, files, fuel).value.direction).Ok?
    ensures r.Ok? ==>
      && r.value.1 == ParseAnimation(animation, root, files, fuel).value
      && ParseInt(r.value.1.direction) == Ok(r.value.0)
  {
    var def :- ParseAnimation(animation, root, files, fuel);
    var direction :- ParseInt(def.direction);
    Ok((direction, def))
  }

  /** `parse_animations`: an empty list raises `IndexError`; if the first
      animation names an atlas, it alone is parsed, as an atlas animation;
      otherwise every animation is parsed and filed under its direction. */
  function ParseAnimations(animations: seq<Element>, root: FsPath, files: Files, fuel: nat): (r: Result<AnimationSet>)
    ensures |animations| == 0 ==> r == Raise(IndexError)
    ensures |animations| > 0 && "atlas" in animations[0].attrib ==> r == ParseAnimationAtlas(animations[0], root)
    ensures |animations| > 0 && "atlas" !in animations[0].attrib ==>
      && (r.Ok? <==> forall i | 0 <= i < |animations| :: AnimationEntry(animations[i], root, files, fuel).Ok?)
      && (r.Ok? ==>
            && r.value.Multi?
            && (forall i | 0 <= i < |animations| ::
                  AnimationEntry(animations[i], root, files, fuel).value.0 in r.value.directions)
            && (forall i | 0 <= i < |animations| && LastWithKey(animations, (a: Element) => AnimationEntry(a, root, files, fuel), i) ::
                  r.value.directions[AnimationEntry(animations[i], root, files, fuel).value.0]
                    == ParseAnimation(animations[i], root, files, fuel).value))
  {
    if |animations| == 0 then Raise(IndexError)
    else if "atlas" in animations[0].attrib then ParseAnimationAtlas(animations[0], root)
    else
      var dirs :- FoldLast(animations, (a: Element) => AnimationEntry(a, root, files, fuel));
      Ok(Multi(dirs))
  }

  /** Only the first animation decides an atlas animation: whatever follows
      it is never read, however malformed. */
  lemma SingleIgnoresLaterAnimations(first: Element, rest: seq<Element>, root: FsPath, files: Files, fuel: nat)
    requires "atlas" in first.attrib
    ensures ParseAnimations([first] + rest, root, files, fuel) == ParseAnimations([first], root, files, fuel)
  {
  }

  /** An inline animation with id "p:q:d" for a direction d is filed
      under d. */
  lemma InlineAnimationDirection(animation: Element, p: string, q: string, d: int, root: FsPath, files: Files, fuel: nat)
    requires "source" !in animation.attrib
    requires ':' !in p && ':' !in q
    requires "id" in animation.attrib && animation.attrib["id"] == p + ":" + q + ":" + IntToString(d)
    requires ParseAnimation(animation, root, files, fuel).Ok?
    ensures AnimationEntry(animation, root, files, fuel) == Ok((d, ParseAnimation(animation, root, files, fuel).value))
  {
    SplitThirdField(p, q, IntToString(d));
    NoColonInIntToString(d);
    assert Split(IntToString(d), ':') == [IntToString(d)];
    ParseIntOfIntToString(d);
  }

  lemma NoColonInIntToString(n: int)
    ensures ':' !in IntToString(n)
  {
    var digits := NatToString(if n < 0 then -n else n);
    assert forall i | 0 <= i < |digits| :: digits[i] != ':';
    if n < 0 {
      assert IntToString(n) == "-" + digits;
      assert forall i | 0 <= i < |IntToString(n)| :: IntToString(n)[i] != ':' by {
        forall i | 0 <= i < |IntToString(n)|
          ensures IntToString(n)[i] != ':'
        {
          if i > 0 {
            assert IntToString(n)[i] == digits[i - 1];
          }
        }
      }
    }
  }

  /** One action: its animations, parsed before its id is read. */
  function ActionEntry(action: Element, root: FsPath, files: Files, fuel: nat): (r: Result<(string, AnimationSet)>)
    ensures r.Ok? <==> ParseAnimations(FindAll(action, "animation"), root, files, fuel).Ok? && "id" in action.attrib
    ensures ParseAnimations(FindAll(action, "animation"), root, files, fuel).Raise? ==>
      r == Raise(ParseAnimations(FindAll(action, "animation"), root, files, fuel).error)
    ensures r.Ok? ==>
      r.value == (action.attrib["id"], ParseAnimations(FindAll(action, "animation"), root, files, fuel).value)
  {
    var animations :- ParseAnimations(FindAll(action, "animation"), root, files, fuel);
    var id :- Attr(action, "id");
    Ok((id, animations))
  }

  /** `parse_actions`: the actions by id, the later of two actions with the
      same id winning. */
  function ParseActions(actions: seq<Element>, root: FsPath, files: Files, fuel: nat): (r: Result<map<string, AnimationSet>>)
    ensures r.Ok? <==> forall i | 0 <= i < |actions| :: ActionEntry(actions[i], root, files, fuel).Ok?
    ensures r.Ok? ==> forall i | 0 <= i < |actions| :: actions[i].attrib["id"] in r.value
    ensures r.Ok? ==> forall id | id in r.value :: exists i | 0 <= i < |actions| :: actions[i].attrib["id"] == id
    ensures r.Ok? ==>
      forall i | 0 <= i < |actions| && LastWithKey(actions, (a: Element) => ActionEntry(a, root, files, fuel), i) ::
        r.value[actions[i].attrib["id"]] == ParseAnimations(FindAll(actions[i], "animation"), root, files, fuel).value
  {
    FoldLast(actions, (a: Element) => ActionEntry(a, root, files, fuel))
  }

  // ---------------------------------------------------------------------
  // parse_object

  /** `parse_object`: `static` 0 is an animated object, 1 a static one;
      any other value raises: `RuntimeError` naming the first child's tag,
      or `IndexError` when the element has no child to name. */
  function ParseObject(obj: Element, root: FsPath, atlas: Option<AtlasDef>, files: Files, fuel: nat): (r: Result<ObjectDef>)
    ensures "static" !in obj.attrib ==> r == Raise(KeyError("static"))
    ensures "static" in obj.attrib && ParseInt(obj.attrib["static"]).Raise? ==>
      r.Raise? && r.error.ValueError?
    ensures r.Ok? ==> r.value.attributes == obj.attrib
    ensures r.Ok? ==>
      && "static" in obj.attrib
      && (r.value.body.Actions? <==> ParseInt(obj.attrib["static"]) == Ok(0))
      && (r.value.body.Directions? <==> ParseInt(obj.attrib["static"]) == Ok(1))
    ensures "static" in obj.attrib && ParseInt(obj.attrib["static"]).Ok?
            && ParseInt(obj.attrib["static"]).value !in {0, 1} ==>
      && r.Raise?
      && (|obj.children| == 0 ==> r.error == IndexError)
      && (|obj.children| > 0 ==> r.error == RuntimeError("Don't know how to handle '" + obj.children[0].tag + "'"))
    ensures r.Ok? && r.value.body.Actions? ==>
      ParseActions(FindAll(obj, "action"), root, files, fuel) == Ok(r.value.body.actions)
    ensures "static" in obj.attrib && ParseInt(obj.attrib["static"]) == Ok(0) ==>
      && (r.Ok? <==> ParseActions(FindAll(obj, "action"), root, files, fuel).Ok?)
      && (r.Raise? ==> r.error == ParseActions(FindAll(obj, "action"), root, files, fuel).error)
    ensures r.Ok? && r.value.body.Directions? ==>
      ParseImages(FindAll(obj, "image"), root, atlas) == Ok(r.value.body.images)
    ensures "static" in obj.attrib && ParseInt(obj.attrib["static"]) == Ok(1) ==>
      && (r.Ok? <==> ParseImages(FindAll(obj, "image"), root, atlas).Ok?)
      && (r.Raise? ==> r.error == ParseImages(FindAll(obj, "image"), root, atlas).error)
    ensures r.Ok? && r.value.body.Directions? ==>
      var images := FindAll(obj, "image");
      var f := (image: Element) => ImageEntry(image, root, atlas);
      && (forall i | 0 <= i < |images| :: f(images[i]).Ok? && f(images[i]).value.0 in r.value.body.images)
      && (forall d | d in r.value.body.images :: exists i | 0 <= i < |images| :: f(images[i]).value.0 == d)
      && (forall i | 0 <= i < |images| && LastWithKey(images, f, i) ::
            r.value.body.images[f(images[i]).value.0] == f(images[i]).value.1)
  {
    var staticText :- Attr(obj, "static");
    var kind :- ParseInt(staticText);
    if kind == 0 then
      var actions :- ParseActions(FindAll(obj, "action"), root, files, fuel);
      Ok(ObjectDef(obj.attrib, Actions(actions)))
    else if kind == 1 then
      var images :- ParseImages(FindAll(obj, "image"), root, atlas);
      Ok(ObjectDef(obj.attrib, Directions(images)))
    else if |obj.children| == 0 then Raise(IndexError)
    else Raise(RuntimeError("Don't know how to handle '" + obj.children[0].tag + "'"))
  }

  /** A static image whose `direction` attribute reads as d is the table's
      entry for d unless a later image claims d too. */
  lemma StaticImageFiledUnderItsDirection(obj: Element, root: FsPath, atlas: Option<AtlasDef>, files: Files, fuel: nat, i: nat, d: int)
    requires ParseObject(obj, root, atlas, files, fuel).Ok?
    requires ParseInt(obj.attrib["static"]) == Ok(1)
    requires i < |FindAll(obj, "image")|
    requires ImageEntry(FindAll(obj, "image")[i], root, atlas).Ok?
    requires ImageEntry(FindAll(obj, "image")[i], root, atlas).value.1.attrs["direction"] == IntToString(d)
    requires forall j | i < j < |FindAll(obj, "image")| :: ImageEntry(FindAll(obj, "image")[j], root, atlas).value.0 != d
    ensures d in ParseObject(obj, root, atlas, files, fuel).value.body.images
    ensures ParseObject(obj, root, atlas, files, fuel).value.body.images[d]
            == ImageEntry(FindAll(obj, "image")[i], root, atlas).value.1
  {
    var images := FindAll(obj, "image");
    var f := (image: Element) => ImageEntry(image, root, atlas);
    ParseIntOfIntToString(d);
    assert f(images[i]).value.0 == d;
    assert LastWithKey(images, f, i);
  }
}
