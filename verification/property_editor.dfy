/** The property editor's registry (editor/property_editor.py): sections,
    each with a set of flags and a map of named properties; the ordered
    list of property classes a new property is dispatched over; and the
    value-changed and section-removed callbacks.

    The widgets each section and property owns are not modelled, nor is
    the widget refresh `add_section` may request. Callbacks are opaque
    values; a call is recorded as the callback paired with its arguments. */
module PropertyEditor {
  import opened Py
  import opened PyValues
  import opened Properties
  import Sets
  import Loops

  datatype Section = Section(flags: set<string>, properties: map<string, Property>)

  datatype Editor<C, R> = Editor(
    sections: map<string, Section>,
    propertyTypes: seq<PropertyKind>,
    valueChanged: seq<C>,
    removeCallbacks: set<R>)

  /** The order `editor/editor_gui.py` registers the property classes in. */
  const EditorGuiTypes: seq<PropertyKind> :=
    [PointKind, Point3DKind, ComboKind, ToggleKind, TextKind, ListKind, SetKind, DictKind, NumberKind]

  /** Where a class stands in the editor's registration order. */
  function GuiPosition(k: PropertyKind): (i: nat)
    ensures i < |EditorGuiTypes| && EditorGuiTypes[i] == k
  {
    match k
    case PointKind => 0
    case Point3DKind => 1
    case ComboKind => 2
    case ToggleKind => 3
    case TextKind => 4
    case ListKind => 5
    case SetKind => 6
    case DictKind => 7
    case NumberKind => 8
  }

  function NewEditor<C, R>(): (e: Editor<C, R>)
    ensures e.sections == map[] && e.propertyTypes == []
    ensures e.valueChanged == [] && e.removeCallbacks == {}
  {
    Editor(map[], [], [], {})
  }

  function AlreadyPresentError(section: string): PyError
  {
    RuntimeError("Tried to add already present section " + section)
  }

  function NoSectionError(section: string): PyError
  {
    ValueError("The section " + section + " does not exist")
  }

  function FlagNotSetError(section: string, flag: string): PyError
  {
    ValueError("The section " + section + " did not have the flag " + flag + " set")
  }

  /** The sections other than `section` are those of `e`, unchanged. */
  ghost predicate OthersUnchanged<C, R>(e': Editor<C, R>, e: Editor<C, R>, section: string)
  {
    && e'.sections.Keys - {section} == e.sections.Keys - {section}
    && (forall s | s in e.sections && s != section :: s in e'.sections && e'.sections[s] == e.sections[s])
    && e'.propertyTypes == e.propertyTypes
    && e'.valueChanged == e.valueChanged
    && e'.removeCallbacks == e.removeCallbacks
  }

  /** `add_section`: a new section has no property and the given flags as
      a set (none when no list is given); a present section raises. */
  function AddSection<C, R>(e: Editor<C, R>, section: string, flags: Option<seq<string>>): (r: Result<Editor<C, R>>)
    ensures r.Ok? <==> section !in e.sections
    ensures r.Raise? ==> r.error == AlreadyPresentError(section)
    ensures r.Ok? ==>
      && section in r.value.sections
      && r.value.sections[section].properties == map[]
      && (forall f :: f in r.value.sections[section].flags <==> flags.Some? && f in flags.value)
      && r.value.sections.Keys == e.sections.Keys + {section}
      && OthersUnchanged(r.value, e, section)
  {
    if section in e.sections then Raise(AlreadyPresentError(section))
    else
      var fs := match flags case None => {} case Some(fl) => set i | 0 <= i < |fl| :: fl[i];
      Ok(e.(sections := e.sections[section := Section(fs, map[])]))
  }

  /** `set_section_flags`: replaces the flags of a known section. */
  function SetSectionFlags<C, R>(e: Editor<C, R>, section: string, flags: set<string>): (r: Result<Editor<C, R>>)
    ensures r.Ok? <==> section in e.sections
    ensures r.Raise? ==> r.error == NoSectionError(section)
    ensures r.Ok? ==>
      && section in r.value.sections
      && r.value.sections[section].flags == flags
      && r.value.sections[section].properties == e.sections[section].properties
      && OthersUnchanged(r.value, e, section)
  {
    if section !in e.sections then Raise(NoSectionError(section))
    else Ok(e.(sections := e.sections[section := e.sections[section].(flags := flags)]))
  }

  /** `add_section_flag`: the flag joins a known section's flags. */
  function AddSectionFlag<C, R>(e: Editor<C, R>, section: string, flag: string): (r: Result<Editor<C, R>>)
    ensures r.Ok? <==> section in e.sections
    ensures r.Raise? ==> r.error == NoSectionError(section)
    ensures r.Ok? ==>
      && section in r.value.sections
      && (forall f :: f in r.value.sections[section].flags <==> f == flag || f in e.sections[section].flags)
      && r.value.sections[section].properties == e.sections[section].properties
      && OthersUnchanged(r.value, e, section)
  {
    if section !in e.sections then Raise(NoSectionError(section))
    else
      var s := e.sections[section];
      Ok(e.(sections := e.sections[section := s.(flags := s.flags + {flag})]))
  }

  /** `remove_section_flag`: exactly the named flag leaves a known
      section's flags; a flag that was not set raises. */
  function RemoveSectionFlag<C, R>(e: Editor<C, R>, section: string, flag: string): (r: Result<Editor<C, R>>)
    ensures r.Ok? <==> section in e.sections && flag in e.sections[section].flags
    ensures section !in e.sections ==> r == Raise(NoSectionError(section))
    ensures section in e.sections && flag !in e.sections[section].flags ==>
      r == Raise(FlagNotSetError(section, flag))
    ensures r.Ok? ==>
      && section in r.value.sections
      && (forall f :: f in r.value.sections[section].flags <==> f != flag && f in e.sections[section].flags)
      && r.value.sections[section].properties == e.sections[section].properties
      && OthersUnchanged(r.value, e, section)
  {
    if section !in e.sections then Raise(NoSectionError(section))
    else
      var s := e.sections[section];
      if flag !in s.flags then Raise(FlagNotSetError(section, flag))
      else Ok(e.(sections := e.sections[section := s.(flags := s.flags - {flag})]))
  }

  /** Adding a flag that was not set and removing it again restores the
      editor; so does removing a flag that was set and adding it back. */
  lemma FlagRoundTrip<C, R>(e: Editor<C, R>, section: string, flag: string)
    requires section in e.sections
    ensures flag !in e.sections[section].flags ==>
      RemoveSectionFlag(AddSectionFlag(e, section, flag).value, section, flag) == Ok(e)
    ensures flag in e.sections[section].flags ==>
      AddSectionFlag(RemoveSectionFlag(e, section, flag).value, section, flag) == Ok(e)
  {
    var s := e.sections[section];
    if flag !in s.flags {
      var e1 := e.(sections := e.sections[section := s.(flags := s.flags + {flag})]);
      assert AddSectionFlag(e, section, flag) == Ok(e1);
      assert s.flags + {flag} - {flag} == s.flags;
      assert e1.sections[section := s] == e.sections;
    } else {
      var e1 := e.(sections := e.sections[section := s.(flags := s.flags - {flag})]);
      assert RemoveSectionFlag(e, section, flag) == Ok(e1);
      assert s.flags - {flag} + {flag} == s.flags;
      assert e1.sections[section := s] == e.sections;
    }
  }

  /** The first registered class, in registration order, that accepts the
      data; `None` when none does. */
  function FirstAccepting(types: seq<PropertyKind>, data: seq<PyValue>): (r: Option<PropertyKind>)
    ensures r.None? <==> forall i | 0 <= i < |types| :: !CheckType(types[i], data)
    ensures r.Some? ==>
      exists i | 0 <= i < |types| ::
        && types[i] == r.value && CheckType(types[i], data)
        && forall j | 0 <= j < i :: !CheckType(types[j], data)
    decreases |types|
  {
    match Loops.FirstIndex(types, k => CheckType(k, data))
    case None => None
    case Some(i) => Some(types[i])
  }

  /** `set_property`. A missing section is created first, without flags.
      A property already present keeps its class and takes the new data.
      A new one is bound to the first registered class that accepts the
      data; when none does, nothing is stored (the source prints a
      message, which is not modelled). */
  function SetProperty<C, R>(e: Editor<C, R>, section: string, name: string, data: seq<PyValue>): (r: Editor<C, R>)
    ensures section in r.sections
    ensures r.sections.Keys == e.sections.Keys + {section}
    ensures OthersUnchanged(r, e, section)
    ensures section !in e.sections ==> r.sections[section].flags == {}
    ensures section in e.sections ==> r.sections[section].flags == e.sections[section].flags
    ensures var old_ := if section in e.sections then e.sections[section].properties else map[];
      var new_ := r.sections[section].properties;
      && (forall n | n in old_ && n != name :: n in new_ && new_[n] == old_[n])
      && (name in old_ ==> name in new_ && new_[name] == UpdateData(old_[name], data))
      && (name !in old_ ==>
            (name in new_ <==> FirstAccepting(e.propertyTypes, data).Some?)
            && (name in new_ ==> new_[name] == Property(FirstAccepting(e.propertyTypes, data).value, section, name, data)))
      && new_.Keys <= old_.Keys + {name}
  {
    var e1 := if section in e.sections then e else AddSection(e, section, None).value;
    var s := e1.sections[section];
    if name in s.properties then
      e1.(sections := e1.sections[section := s.(properties := s.properties[name := UpdateData(s.properties[name], data)])])
    else
      match FirstAccepting(e1.propertyTypes, data)
      case None => e1
      case Some(k) =>
        e1.(sections := e1.sections[section := s.(properties := s.properties[name := Property(k, section, name, data)])])
  }

  /** Setting a property that is already present never dispatches again:
      its class stays even when that class would reject the new data. */
  lemma {:induction false} SetPropertyKeepsClass<C, R>(e: Editor<C, R>, section: string, name: string, d1: seq<PyValue>, d2: seq<PyValue>)
    requires FirstAccepting(e.propertyTypes, d1).Some?
    ensures var e1 := SetProperty(e, section, name, d1);
      && name in e1.sections[section].properties
      && var e2 := SetProperty(e1, section, name, d2);
      && name in e2.sections[section].properties
      && e2.sections[section].properties[name].kind == e1.sections[section].properties[name].kind
      && e2.sections[section].properties[name].valueData == d2
  {
    var e1 := SetProperty(e, section, name, d1);
    assert name in e1.sections[section].properties;
    var e2 := SetProperty(e1, section, name, d2);
    assert e2.sections[section].properties[name] == UpdateData(e1.sections[section].properties[name], d2);
  }

  /** `add_property_type`: the class joins the end of the list. */
  function AddPropertyType<C, R>(e: Editor<C, R>, k: PropertyKind): (r: Editor<C, R>)
    ensures |r.propertyTypes| == |e.propertyTypes| + 1
    ensures r.propertyTypes[..|e.propertyTypes|] == e.propertyTypes && r.propertyTypes[|e.propertyTypes|] == k
    ensures r.sections == e.sections && r.valueChanged == e.valueChanged && r.removeCallbacks == e.removeCallbacks
  {
    e.(propertyTypes := e.propertyTypes + [k])
  }

  /** A class registered later only takes data no earlier class accepts. */
  lemma LaterTypeOnlyFillsGaps(types: seq<PropertyKind>, k: PropertyKind, data: seq<PyValue>)
    ensures FirstAccepting(types, data).Some? ==> FirstAccepting(types + [k], data) == FirstAccepting(types, data)
    ensures FirstAccepting(types, data).None? ==>
      FirstAccepting(types + [k], data) == (if CheckType(k, data) then Some(k) else None)
  {
    var ts := types + [k];
    assert forall i | 0 <= i < |types| :: ts[i] == types[i];
    match Loops.FirstIndex(types, k => CheckType(k, data))
    case Some(i) => FirstAcceptingAt(ts, data, i);
    case None =>
      if CheckType(k, data) {
        FirstAcceptingAt(ts, data, |types|);
      }
  }

  /** Registering the editor's classes in its order gives that list. */
  lemma EditorGuiRegistration<C, R>()
    ensures
      var e := NewEditor<C, R>();
      var e9 := AddPropertyType(AddPropertyType(AddPropertyType(AddPropertyType(AddPropertyType(
        AddPropertyType(AddPropertyType(AddPropertyType(AddPropertyType(e,
          PointKind), Point3DKind), ComboKind), ToggleKind), TextKind), ListKind), SetKind), DictKind), NumberKind);
      e9.propertyTypes == EditorGuiTypes
  {
  }

  /** The class the editor's registration order gives a single value: a
      bool goes to the toggle, not to the number class that also accepts
      it, since the toggle is registered first; a long, a tuple or `None`
      finds no class. */
  function SingleValueKind(v: PyValue): Option<PropertyKind>
  {
    match v
    case PBool(_) => Some(ToggleKind)
    case PInt(_) => Some(NumberKind)
    case PFloat(_) => Some(NumberKind)
    case PStr(_) => Some(TextKind)
    case PUnicode(_) => Some(TextKind)
    case PList(_) => Some(ListKind)
    case PSet(_) => Some(SetKind)
    case PDict(_) => Some(DictKind)
    case PPoint(_, _) => Some(PointKind)
    case PPoint3D(_, _, _) => Some(Point3DKind)
    case PNone => None
    case PLong(_) => None
    case PTuple(_) => None
  }

  /** The first accepting class is the one at the first accepting index. */
  lemma FirstAcceptingAt(types: seq<PropertyKind>, data: seq<PyValue>, i: nat)
    requires i < |types| && CheckType(types[i], data)
    requires forall j | 0 <= j < i :: !CheckType(types[j], data)
    ensures FirstAccepting(types, data) == Some(types[i])
  {
    var r := FirstAccepting(types, data);
    var i' :| 0 <= i' < |types| && types[i'] == r.value && CheckType(types[i'], data)
              && forall j | 0 <= j < i' :: !CheckType(types[j], data);
    assert i' == i;
  }

  /** Which classes accept one value: the class `SingleValueKind` names,
      and for a bool also the number class. */
  lemma SingleValueAcceptedBy(k: PropertyKind, v: PyValue)
    ensures CheckType(k, [v]) <==> SingleValueKind(v) == Some(k) || (k == NumberKind && v.PBool?)
  {
  }

  /** With the editor's registration order, one value is dispatched to
      the class `SingleValueKind` names. */
  lemma SingleValueDispatch(v: PyValue)
    ensures FirstAccepting(EditorGuiTypes, [v]) == SingleValueKind(v)
  {
    var ts := EditorGuiTypes;
    forall k { SingleValueAcceptedBy(k, v); }
    if SingleValueKind(v).Some? {
      FirstAcceptingAt(ts, [v], GuiPosition(SingleValueKind(v).value));
    }
  }

  /** Were the number class registered before the toggle, a bool would
      be edited as a number: the registration order decides it. */
  lemma BoolOrderMatters(b: bool)
    ensures FirstAccepting([NumberKind, ToggleKind], [PBool(b)]) == Some(NumberKind)
    ensures FirstAccepting([ToggleKind, NumberKind], [PBool(b)]) == Some(ToggleKind)
  {
  }

  /** `clear_properties`: every section goes; the registrations stay. */
  function ClearProperties<C, R>(e: Editor<C, R>): (r: Editor<C, R>)
    ensures r.sections == map[]
    ensures r.propertyTypes == e.propertyTypes && r.valueChanged == e.valueChanged
    ensures r.removeCallbacks == e.removeCallbacks
  {
    e.(sections := map[])
  }

  /** `add_value_changed_callback`: appended to the list. */
  function AddValueChangedCallback<C, R>(e: Editor<C, R>, cb: C): (r: Editor<C, R>)
    ensures r.valueChanged == e.valueChanged + [cb]
    ensures r.sections == e.sections && r.propertyTypes == e.propertyTypes
    ensures r.removeCallbacks == e.removeCallbacks
  {
    e.(valueChanged := e.valueChanged + [cb])
  }

  /** `add_remove_callback`: added to the set, once however often added. */
  function AddRemoveCallback<C, R>(e: Editor<C, R>, cb: R): (r: Editor<C, R>)
    ensures cb in r.removeCallbacks && r.removeCallbacks - {cb} == e.removeCallbacks - {cb}
    ensures r.sections == e.sections && r.propertyTypes == e.propertyTypes
    ensures r.valueChanged == e.valueChanged
  {
    e.(removeCallbacks := e.removeCallbacks + {cb})
  }

  /** `send_value_changed`: the calls made, one per callback, in
      registration order, each with the same arguments. */
  function ValueChangedCalls<C>(cbs: seq<C>, section: string, name: string, value: PyValue): (calls: seq<(C, string, string, PyValue)>)
    ensures |calls| == |cbs|
    ensures forall i | 0 <= i < |cbs| :: calls[i] == (cbs[i], section, name, value)
    decreases |cbs|
  {
    if |cbs| == 0 then []
    else ValueChangedCalls(cbs[..|cbs| - 1], section, name, value) + [(cbs[|cbs| - 1], section, name, value)]
  }

  /** A callback added last is called last, after the earlier ones. */
  lemma {:induction false} AddedCallbackCalledLast<C, R>(e: Editor<C, R>, cb: C, section: string, name: string, value: PyValue)
    ensures ValueChangedCalls(AddValueChangedCallback(e, cb).valueChanged, section, name, value) ==
      ValueChangedCalls(e.valueChanged, section, name, value) + [(cb, section, name, value)]
  {
    var cbs := e.valueChanged + [cb];
    assert cbs[..|cbs| - 1] == e.valueChanged;
  }

  /** One call of every remove callback, in some order, with the section's
      name; a set of callbacks has no order of its own. */
  method RemoveCalls<R>(cbs: set<R>, section: string) returns (calls: seq<(R, string)>)
    ensures |calls| == |cbs|
    ensures forall cb :: cb in cbs <==> exists i | 0 <= i < |calls| :: calls[i].0 == cb
    ensures forall i | 0 <= i < |calls| :: calls[i].1 == section
  {
    calls := [];
    var todo, done := cbs, {};
    while todo != {}
      invariant todo + done == cbs && todo !! done
      invariant |calls| == |done|
      invariant forall i | 0 <= i < |calls| :: calls[i].0 in done && calls[i].1 == section
      invariant forall cb | cb in done :: exists i | 0 <= i < |calls| :: calls[i].0 == cb
      decreases |todo|
    {
      var cb :| cb in todo;
      var calls' := calls + [(cb, section)];
      assert forall i | 0 <= i < |calls| :: calls'[i] == calls[i];
      assert calls'[|calls|].0 == cb;
      calls, todo, done := calls', todo - {cb}, done + {cb};
    }
  }

  /** `cb_remove_clicked`: the section goes, and every remove callback is
      called once with its name, in the set's (unspecified) order. A name
      that is not a section raises `KeyError` with nothing changed. */
  method CbRemoveClicked<C, R>(e: Editor<C, R>, section: string) returns (o: Outcome<(Editor<C, R>, seq<(R, string)>)>)
    ensures section !in e.sections ==> o == Fail((e, []), KeyError(section))
    ensures section in e.sections ==> o.raised.None?
    ensures section in e.sections ==>
      var (e', calls) := o.state;
      && e'.sections.Keys == e.sections.Keys - {section}
      && OthersUnchanged(e', e, section)
      && |calls| == |e.removeCallbacks|
      && (forall cb :: cb in e.removeCallbacks <==> exists i | 0 <= i < |calls| :: calls[i].0 == cb)
      && (forall i | 0 <= i < |calls| :: calls[i].1 == section)
  {
    if section !in e.sections {
      return Fail((e, []), KeyError(section));
    }
    var e' := e.(sections := e.sections - {section});
    var calls := RemoveCalls(e.removeCallbacks, section);
    o := Done((e', calls));
  }
}
