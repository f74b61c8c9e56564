/** The property classes of the property editor (editor/properties.py),
    reduced to what decides their behaviour outside the widgets: which
    data each class accepts (`check_type`) and how a property's data is
    replaced (`update_data`).

    Every class but the combo box edits exactly one value and accepts it
    by `isinstance`; the combo box edits a pair of a collection of
    possible values and the current value. The combo check as written
    reads that pair the wrong way round; `ComboCheckAsWritten` keeps the
    written check, and the combo kind the editor dispatches to uses the
    corrected `ComboCheck`. */
module Properties {
  import opened PyValues

  datatype PropertyKind =
    | PointKind | Point3DKind | ComboKind | ToggleKind | TextKind
    | ListKind | SetKind | DictKind | NumberKind

  /** The classes a one-value kind passes to `isinstance`. */
  function AcceptedClasses(k: PropertyKind): set<PyType>
    requires k != ComboKind
  {
    match k
    case PointKind => {PointType}
    case Point3DKind => {Point3DType}
    case ToggleKind => {BoolType}
    case TextKind => {BaseStringType}
    case ListKind => {ListType}
    case SetKind => {SetType}
    case DictKind => {DictType}
    case NumberKind => {FloatType, IntType}
  }

  /** `check_type` of the one-value kinds: the data holds one value, an
      instance of one of the kind's classes. */
  predicate SingleCheck(k: PropertyKind, data: seq<PyValue>)
    requires k != ComboKind
  {
    |data| == 1 && IsInstanceOfAny(data[0], AcceptedClasses(k))
  }

  /** `ComboProperty.check_type` as written: the SECOND element must be
      iterable and every member must have exactly the class of the FIRST
      element, while the widget takes the first element as the possible
      values and the second as the current one. */
  function ComboCheckAsWritten(data: seq<PyValue>): (ok: bool)
    ensures ok <==>
      && |data| == 2
      && Iterable(data[1])
      && forall x | x in Members(data[1]) :: TypeOf(x) == TypeOf(data[0])
  {
    |data| == 2 && Iterable(data[1]) && MemberTypes(data[1]) <= {TypeOf(data[0])}
  }

  /** The check as written is the widget's check on the pair turned round. */
  lemma ComboCheckAsWrittenSwaps(data: seq<PyValue>)
    requires |data| == 2
    ensures ComboCheckAsWritten(data) == ComboCheck([data[1], data[0]])
  {
  }

  /** The combo check the widget needs: the first element is an iterable
      of possible values, each of exactly the class of the current value,
      the second element. Class equality, not `isinstance`, as written. */
  function ComboCheck(data: seq<PyValue>): (ok: bool)
    ensures ok <==>
      && |data| == 2
      && Iterable(data[0])
      && forall x | x in Members(data[0]) :: TypeOf(x) == TypeOf(data[1])
  {
    |data| == 2 && Iterable(data[0]) && MemberTypes(data[0]) <= {TypeOf(data[1])}
  }

  /** Whether a property class accepts the data, one case per class. */
  function CheckType(k: PropertyKind, data: seq<PyValue>): (ok: bool)
    ensures k != ComboKind && |data| != 1 ==> !ok
    ensures k == ComboKind && |data| != 2 ==> !ok
    ensures k == ToggleKind ==> (ok <==> |data| == 1 && data[0].PBool?)
    ensures k == NumberKind ==> (ok <==> |data| == 1 && (data[0].PInt? || data[0].PFloat? || data[0].PBool?))
    ensures k == TextKind ==> (ok <==> |data| == 1 && (data[0].PStr? || data[0].PUnicode?))
    ensures k == ListKind ==> (ok <==> |data| == 1 && data[0].PList?)
    ensures k == SetKind ==> (ok <==> |data| == 1 && data[0].PSet?)
    ensures k == DictKind ==> (ok <==> |data| == 1 && data[0].PDict?)
    ensures k == PointKind ==> (ok <==> |data| == 1 && data[0].PPoint?)
    ensures k == Point3DKind ==> (ok <==> |data| == 1 && data[0].PPoint3D?)
    ensures k == ComboKind ==> (ok <==> ComboCheck(data))
  {
    if k == ComboKind then ComboCheck(data)
    else if |data| == 1 then
      IsInstanceSubclasses(data[0]);
      SingleCheck(k, data)
    else false
  }

  /** The combo check as written rejects a well-formed pair (a list of
      strings with a string current value) and accepts a reversed one,
      whose "possible values" would be the letters of a string. */
  lemma ComboCheckReadsPairBackwards()
    ensures var good := [PList([PStr("a"), PStr("b")]), PStr("a")];
      !ComboCheckAsWritten(good) && ComboCheck(good)
    ensures var reversed := [PStr("a"), PList([PStr("a"), PStr("b")])];
      ComboCheckAsWritten(reversed) && !ComboCheck(reversed)
  {
    var good := [PList([PStr("a"), PStr("b")]), PStr("a")];
    assert PStr([good[1].s[0]]) in Members(good[1]);
    var reversed := [PStr("a"), PList([PStr("a"), PStr("b")])];
    assert PStr([reversed[0].s[0]]) in Members(reversed[0]);
  }

  /** A property: its class, its place and its data. */
  datatype Property = Property(kind: PropertyKind, section: string, name: string, valueData: seq<PyValue>)

  /** `update_data`: the data is replaced; the property keeps its class
      and place, whether or not that class would accept the new data. */
  function UpdateData(p: Property, data: seq<PyValue>): (r: Property)
    ensures r.valueData == data
    ensures r.kind == p.kind && r.section == p.section && r.name == p.name
  {
    p.(valueData := data)
  }
}
