/** The components dialogs (editor/components.py).

    `Components` lets the user choose which components a project uses: a
    list of the project's components, a list of the other known ones, and
    buttons that move selected entries between them. What the application
    knows about each component (its dependencies and base classes,
    whether any entity uses it, which components exist) is an input here:
    `World` stands for `get_component_data`, the entity query and the
    `components` table. The lists are the sets of entry texts they show;
    an entry's text is the component name, possibly behind a colour tag.

    `AvailableComponents` edits the table of known components. Importing
    a module is outside the model: the components found in it arrive as a
    list of (class name, defining module) pairs. */
module Components {
  import opened Py
  import opened Xml
  import ObjectParser

  const MandatoryComponents: set<string> := {"Agent", "FifeAgent", "General"}

  const InUseTag: string := "[colour='FFFF0000']"
  const UsedBaseTag: string := "[colour='FF0000FF']"
  const DependencyTag: string := "[colour='FFC0C0C0']"

  /** A base class of a component class: the common base, or another one. */
  datatype Base = BaseComponent | BaseClass(name: string)

  datatype ComponentClass = ComponentClass(dependencies: set<string>, bases: set<Base>)

  datatype World = World(
    classOf: string -> ComponentClass,
    known: set<string>,
    hasEntities: set<string>)

  datatype Dialog = Dialog(
    project: set<string>,
    usedBases: set<string>,
    inUse: set<string>,
    currentTexts: set<string>,
    availableTexts: set<string>)

  function LowerChar(c: char): char
  {
    if 'A' <= c <= 'Z' then (c as int + 32) as char else c
  }

  /** `text.lower().startswith("[colour")`. */
  predicate HasColourTag(text: string)
  {
    |text| >= 7 && forall i | 0 <= i < 7 :: LowerChar(text[i]) == "[colour"[i]
  }

  /** Strips a leading colour tag: everything up to the first `]`. */
  function ClearText(text: string): (r: string)
    ensures |r| <= |text| && r == text[|text| - |r|..]
    ensures !HasColourTag(text) ==> r == text
  {
    if HasColourTag(text) && ']' in text then text[IndexOf(text, ']') + 1..] else text
  }

  /** A name that cannot be mistaken for a tagged text. Component names are
      Python class names, which never start with `[`. */
  predicate Plain(c: string)
  {
    |c| == 0 || c[0] != '['
  }

  lemma ClearPlain(c: string)
    requires Plain(c)
    ensures ClearText(c) == c
  {
  }

  /** Each tag the dialog puts before a name is stripped exactly. */
  lemma {:induction false} ClearTagged(tag: string, c: string)
    requires tag in {InUseTag, UsedBaseTag, DependencyTag}
    ensures ClearText(tag + c) == c
  {
    var t := tag + c;
    assert t[..|tag|] == tag;
    assert HasColourTag(t) by {
      forall i | 0 <= i < 7 ensures LowerChar(t[i]) == "[colour"[i] {
        assert t[i] == tag[i];
      }
    }
    assert t[|tag| - 1] == ']';
    assert ']' !in t[..|tag| - 1] by {
      assert t[..|tag| - 1] == tag[..|tag| - 1];
    }
    ObjectParser.IndexOfIsFirst(t, ']', |tag| - 1);
    assert t[|tag|..] == c;
  }

  /** The names some project component has as a base class, the common
      base excepted. */
  function UsedBases(project: set<string>, w: World): (r: set<string>)
    ensures forall n :: n in r <==> exists c | c in project :: BaseClass(n) in w.classOf(c).bases
  {
    var r := set c, b | c in project && b in w.classOf(c).bases && b.BaseClass? :: b.name;
    assert forall n, c | c in project && BaseClass(n) in w.classOf(c).bases :: n in r by {
      forall n, c | c in project && BaseClass(n) in w.classOf(c).bases ensures n in r {
        var b := BaseClass(n);
        assert b.BaseClass? && b.name == n;
      }
    }
    r
  }

  function Dependencies(project: set<string>, w: World): set<string>
  {
    set c, d | c in project && d in w.classOf(c).dependencies :: d
  }

  /** The text of a known component outside the project: tagged when it is
      a used base, otherwise when a project component depends on it. */
  function AvailableText(c: string, usedBases: set<string>, current: set<string>): string
  {
    if c in usedBases then UsedBaseTag + c
    else if c in current then DependencyTag + c
    else c
  }

  function CurrentText(c: string, inUse: set<string>): string
  {
    if c in inUse then InUseTag + c else c
  }

  /** `update_lists`: the components that are a base of another leave the
      project; the in-use set is taken over the project as it was; the
      current list shows the project and the available list every other
      known component. */
  function UpdateLists(project: set<string>, w: World): (d: Dialog)
    ensures forall n :: n in d.usedBases <==> exists c | c in project :: BaseClass(n) in w.classOf(c).bases
    ensures forall c :: c in d.project <==> c in project && c !in d.usedBases
    ensures forall c :: c in d.inUse <==> c in project && c in w.hasEntities
    ensures forall c | c in d.project :: CurrentText(c, d.inUse) in d.currentTexts
    ensures forall t | t in d.currentTexts :: exists c | c in d.project :: t == CurrentText(c, d.inUse)
  {
    var used := UsedBases(project, w);
    var project' := project - used;
    var inUse := project * w.hasEntities;
    var current := Dependencies(project, w) + project';
    Dialog(
      project',
      used,
      inUse,
      set c | c in project' :: CurrentText(c, inUse),
      set c | c in w.known - project' :: AvailableText(c, used, current))
  }

  lemma ClearCurrentText(c: string, inUse: set<string>)
    requires Plain(c)
    ensures ClearText(CurrentText(c, inUse)) == c
  {
    if c in inUse {
      ClearTagged(InUseTag, c);
    } else {
      ClearPlain(c);
    }
  }

  lemma ClearAvailableText(c: string, usedBases: set<string>, current: set<string>)
    requires Plain(c)
    ensures ClearText(AvailableText(c, usedBases, current)) == c
  {
    if c in usedBases {
      ClearTagged(UsedBaseTag, c);
    } else if c in current {
      ClearTagged(DependencyTag, c);
    } else {
      ClearPlain(c);
    }
  }

  /** With plain names, the current list shows, once the tags are cleared,
      exactly the project. */
  lemma {:induction false} CurrentListShowsProject(project: set<string>, w: World)
    requires forall c | c in project :: Plain(c)
    ensures var d := UpdateLists(project, w);
      forall c :: c in d.project <==> exists t | t in d.currentTexts :: ClearText(t) == c
  {
    var d := UpdateLists(project, w);
    forall t | t in d.currentTexts
      ensures ClearText(t) in d.project
    {
      var c :| c in d.project && t == CurrentText(c, d.inUse);
      ClearCurrentText(c, d.inUse);
    }
    forall c | c in d.project
      ensures exists t | t in d.currentTexts :: ClearText(t) == c
    {
      ClearCurrentText(c, d.inUse);
      assert CurrentText(c, d.inUse) in d.currentTexts;
    }
  }

  /** With plain names, the available list shows, once the tags are
      cleared, exactly the known components outside the project. */
  lemma {:induction false} AvailableListShowsRest(project: set<string>, w: World)
    requires forall c | c in w.known :: Plain(c)
    ensures var d := UpdateLists(project, w);
      forall c :: c in w.known - d.project <==> exists t | t in d.availableTexts :: ClearText(t) == c
  {
    var d := UpdateLists(project, w);
    var current := Dependencies(project, w) + d.project;
    assert d.availableTexts == set c | c in w.known - d.project :: AvailableText(c, d.usedBases, current);
    forall t | t in d.availableTexts
      ensures ClearText(t) in w.known - d.project
    {
      var c :| c in w.known - d.project && t == AvailableText(c, d.usedBases, current);
      ClearAvailableText(c, d.usedBases, current);
    }
    forall c | c in w.known - d.project
      ensures exists t | t in d.availableTexts :: ClearText(t) == c
    {
      ClearAvailableText(c, d.usedBases, current);
      assert AvailableText(c, d.usedBases, current) in d.availableTexts;
    }
  }

  /** Setting up the dialog: the project's configured components plus the
      mandatory ones, then `update_lists`. */
  function Setup(configured: seq<string>, w: World): (d: Dialog)
    ensures forall m | m in MandatoryComponents :: m in d.project || m in d.usedBases
    ensures forall i | 0 <= i < |configured| :: configured[i] in d.project || configured[i] in d.usedBases
    ensures forall c | c in d.project :: c in MandatoryComponents || exists i | 0 <= i < |configured| :: configured[i] == c
  {
    UpdateLists((set i | 0 <= i < |configured| :: configured[i]) + MandatoryComponents, w)
  }

  /** A name `cb_move_left_clicked` may move out of the project. */
  predicate MayLeave(d: Dialog, name: string)
  {
    name !in d.inUse && name !in MandatoryComponents
  }

  /** The selected entries' texts with their tags stripped. */
  function ClearAll(selected: seq<string>): (names: seq<string>)
    ensures |names| == |selected| && forall i | 0 <= i < |selected| :: names[i] == ClearText(selected[i])
  {
    seq(|selected|, i requires 0 <= i < |selected| => ClearText(selected[i]))
  }

  /** The loop of `cb_move_left_clicked` over the selected names: a
      guarded name stays; any other leaves the project, and one that is
      not in it (any more) raises `KeyError`. */
  function MoveLeftLoop(d: Dialog, project: set<string>, names: seq<string>): (r: Result<set<string>>)
    ensures r.Ok? <==>
      forall i | 0 <= i < |names| && MayLeave(d, names[i]) :: names[i] in project && names[i] !in names[..i]
    ensures r.Ok? ==> forall c :: c in r.value <==> c in project && !(c in names && MayLeave(d, c))
    ensures r.Raise? ==> r.error.KeyError?
    decreases |names|
  {
    if |names| == 0 then Ok(project)
    else
      var name := names[0];
      var tail := names[1..];
      assert forall i | 1 <= i < |names| :: names[i] == tail[i - 1] && names[..i] == [name] + tail[..i - 1];
      if !MayLeave(d, name) then MoveLeftLoop(d, project, tail)
      else if name !in project then Raise(KeyError(name))
      else MoveLeftLoop(d, project - {name}, tail)
  }

  /** `cb_move_left_clicked`: the loop, then `update_lists`. A mandatory or
      in-use name never leaves, and nothing joins. */
  function MoveLeft(d: Dialog, selected: seq<string>, w: World): (r: Result<Dialog>)
    ensures r.Ok? <==> MoveLeftLoop(d, d.project, ClearAll(selected)).Ok?
    ensures r.Ok? ==> r.value.project <= d.project
    ensures r.Ok? ==> forall c | c in d.project && !MayLeave(d, c) :: c in r.value.project || c in r.value.usedBases
    ensures r.Ok? ==> forall i | 0 <= i < |selected| && MayLeave(d, ClearText(selected[i])) ::
      ClearText(selected[i]) !in r.value.project
  {
    var names := ClearAll(selected);
    var project :- MoveLeftLoop(d, d.project, names);
    assert forall i | 0 <= i < |selected| :: names[i] in names;
    Ok(UpdateLists(project, w))
  }

  /** Moving names the current list shows, each entry selected once,
      never raises: every text stands for a distinct project component. */
  lemma {:induction false} MoveLeftFromCurrentList(project: set<string>, w: World, selected: seq<string>)
    requires forall c | c in project :: Plain(c)
    requires forall i | 0 <= i < |selected| :: selected[i] in UpdateLists(project, w).currentTexts
    requires forall i, j | 0 <= i < j < |selected| :: selected[i] != selected[j]
    ensures var d := UpdateLists(project, w);
      MoveLeftLoop(d, d.project, ClearAll(selected)).Ok?
  {
    var d := UpdateLists(project, w);
    var names := ClearAll(selected);
    forall i | 0 <= i < |selected|
      ensures names[i] in d.project && selected[i] == CurrentText(names[i], d.inUse)
    {
      var c :| c in d.project && selected[i] == CurrentText(c, d.inUse);
      ClearCurrentText(c, d.inUse);
    }
    forall i | 0 <= i < |names|
      ensures names[i] !in names[..i]
    {
      forall j | 0 <= j < i ensures names[j] != names[i] {
        assert selected[j] != selected[i];
      }
    }
  }

  /** The names `cb_move_right_clicked` adds: each selected text with its
      tag stripped, unless it is a used base. */
  function Joining(d: Dialog, selected: seq<string>): (r: set<string>)
    ensures forall c :: c in r <==> c !in d.usedBases && exists i | 0 <= i < |selected| :: ClearText(selected[i]) == c
  {
    set i | 0 <= i < |selected| && ClearText(selected[i]) !in d.usedBases :: ClearText(selected[i])
  }

  /** `cb_move_right_clicked`: the joining names enter the project, then
      `update_lists`. A used base never enters from the selection, and
      nothing leaves but the bases `update_lists` removes. */
  function MoveRight(d: Dialog, selected: seq<string>, w: World): (r: Dialog)
    ensures r.project <= d.project + Joining(d, selected)
    ensures forall c | c in d.project + Joining(d, selected) && c !in r.usedBases :: c in r.project
    ensures forall c | c in d.usedBases && c !in d.project :: c !in r.project
  {
    UpdateLists(d.project + Joining(d, selected), w)
  }

  /** `cb_edit_available_components_clicked`: after the table was edited
      (`w` is the world afterwards), the project keeps only the components
      still known. */
  function EditAvailable(d: Dialog, w: World): (r: Dialog)
    ensures r.project <= d.project * w.known
    ensures forall c | c in d.project && c in w.known && c !in r.usedBases :: c in r.project
  {
    UpdateLists(d.project * w.known, w)
  }

  /** The table of known components (name to module path) being edited,
      and the project components some entity uses. */
  datatype Available = Available(values: map<string, string>, inUse: set<string>)

  function SetupAvailable(configured: set<string>, components: map<string, string>, hasEntities: set<string>): (a: Available)
    ensures a.values == components
    ensures forall c :: c in a.inUse <==> c in configured && c in hasEntities
  {
    Available(components, configured * hasEntities)
  }

  /** `cb_text_changed`: Add is enabled for a non-empty module path that
      is not already a component's name. */
  function AddEnabled(a: Available, text: string): (enabled: bool)
    ensures enabled <==> |text| > 0 && forall c | c in a.values :: c != text
  {
    |text| > 0 && text !in a.values
  }

  /** `cb_add_clicked` after the import: each component class found,
      unless defined in another dotted module, is recorded with the path
      typed in, when its name is not known yet. */
  function AddFound(a: Available, modulePath: string, found: seq<(string, string)>): (r: Available)
    ensures r.inUse == a.inUse
    ensures forall c | c in a.values :: c in r.values && r.values[c] == a.values[c]
    ensures forall c | c in r.values && c !in a.values :: r.values[c] == modulePath
    ensures forall c | c in r.values && c !in a.values ::
      exists i | 0 <= i < |found| :: found[i].0 == c && ('.' !in found[i].1 || found[i].1 == modulePath)
    ensures forall i | 0 <= i < |found| && ('.' !in found[i].1 || found[i].1 == modulePath) :: found[i].0 in r.values
    decreases |found|
  {
    if |found| == 0 then a
    else
      var name := found[0].0;
      var definedIn := found[0].1;
      var a' := if ('.' in definedIn && definedIn != modulePath) || name in a.values then a
                else a.(values := a.values[name := modulePath]);
      var r := AddFound(a', modulePath, found[1..]);
      assert forall i | 1 <= i < |found| :: found[i] == found[1..][i - 1];
      r
  }

  /** Once a component class is recorded, typing its name no longer
      enables Add. */
  lemma AddFoundDisablesAdd(a: Available, modulePath: string, found: seq<(string, string)>, i: nat)
    requires i < |found| && ('.' !in found[i].1 || found[i].1 == modulePath)
    ensures !AddEnabled(AddFound(a, modulePath, found), found[i].0)
  {
  }


  /** `cb_delete_clicked`: a component in use stays; any other is removed
      from the table, and one that is not in it raises `KeyError`. */
  function Delete(a: Available, text: string): (r: Result<Available>)
    ensures var c := ClearText(text);
      && (c in a.inUse ==> r == Ok(a))
      && (c !in a.inUse && c !in a.values ==> r == Raise(KeyError(c)))
      && (c !in a.inUse && c in a.values ==>
            && r.Ok? && r.value.inUse == a.inUse && r.value.values.Keys == (a.values.Keys - {c})
            && forall k | k in r.value.values :: r.value.values[k] == a.values[k])
  {
    var c := ClearText(text);
    if c in a.inUse then Ok(a)
    else if c !in a.values then Raise(KeyError(c))
    else Ok(a.(values := a.values - {c}))
  }

  /** Adding a new component and deleting it again restores the table. */
  lemma {:induction false} AddThenDelete(a: Available, modulePath: string, name: string)
    requires name !in a.values && name !in a.inUse && Plain(name)
    ensures var a' := AddFound(a, modulePath, [(name, modulePath)]);
      name in a'.values && Delete(a', name) == Ok(a)
  {
    var a' := AddFound(a, modulePath, [(name, modulePath)]);
    ClearPlain(name);
    assert a'.values == a.values[name := modulePath];
    assert a'.values - {name} == a.values;
  }
}
