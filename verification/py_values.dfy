/** Python 2 values as the property editor sees them.

    A property's data is a Python list of values. The property classes
    decide whether they can edit such data by asking `isinstance`,
    `type(...) ==` and "is it iterable", so this module models exactly
    those three questions over a tagged value. `bool` is a subclass of
    `int`; `str` and `unicode` are both `basestring`; `long` is its own
    type, unrelated to `int`. The two point types stand for the
    `DoublePointYaml` and `DoublePoint3DYaml` helper classes (their module
    is not part of this model), with real coordinates. */
module PyValues {

  datatype PyValue =
    | PNone
    | PBool(b: bool)
    | PInt(i: int)
    | PLong(l: int)
    | PFloat(f: real)
    | PStr(s: string)
    | PUnicode(u: string)
    | PList(items: seq<PyValue>)
    | PTuple(items: seq<PyValue>)
    | PSet(elems: set<PyValue>)
    | PDict(entries: map<PyValue, PyValue>)
    | PPoint(x: real, y: real)
    | PPoint3D(x: real, y: real, z: real)

  /** The classes the checks name. `BaseStringType` is abstract: no value
      has it as its exact type. */
  datatype PyType =
    | NoneType | BoolType | IntType | LongType | FloatType
    | StrType | UnicodeType | BaseStringType
    | ListType | TupleType | SetType | DictType
    | PointType | Point3DType

  /** `type(v)`: the exact class of a value. */
  function TypeOf(v: PyValue): (t: PyType)
    ensures t != BaseStringType
  {
    match v
    case PNone => NoneType
    case PBool(_) => BoolType
    case PInt(_) => IntType
    case PLong(_) => LongType
    case PFloat(_) => FloatType
    case PStr(_) => StrType
    case PUnicode(_) => UnicodeType
    case PList(_) => ListType
    case PTuple(_) => TupleType
    case PSet(_) => SetType
    case PDict(_) => DictType
    case PPoint(_, _) => PointType
    case PPoint3D(_, _, _) => Point3DType
  }

  /** The classes a value's exact class derives from, itself included. */
  function Ancestors(t: PyType): set<PyType>
  {
    match t
    case BoolType => {BoolType, IntType}
    case StrType => {StrType, BaseStringType}
    case UnicodeType => {UnicodeType, BaseStringType}
    case _ => {t}
  }

  /** `isinstance(v, c)`. */
  predicate IsInstance(v: PyValue, c: PyType)
  {
    c in Ancestors(TypeOf(v))
  }

  /** `isinstance(v, cs)` for a tuple of classes. */
  predicate IsInstanceOfAny(v: PyValue, cs: set<PyType>)
  {
    exists c | c in cs :: IsInstance(v, c)
  }

  /** Which values `isinstance` puts in each class that has subclasses:
      a bool is an int, and only str and unicode are basestrings. */
  lemma IsInstanceSubclasses(v: PyValue)
    ensures IsInstance(v, IntType) <==> v.PInt? || v.PBool?
    ensures IsInstance(v, BaseStringType) <==> v.PStr? || v.PUnicode?
    ensures IsInstance(v, LongType) <==> v.PLong?
    ensures IsInstance(v, BoolType) <==> v.PBool?
  {
  }

  /** `iter(v)` succeeds: strings and the containers. */
  predicate Iterable(v: PyValue)
  {
    v.PStr? || v.PUnicode? || v.PList? || v.PTuple? || v.PSet? || v.PDict?
  }

  /** What iterating `v` yields: one-character strings of the same kind
      for a string, the items of a list or tuple, the elements of a set
      and the keys of a dictionary. Only membership matters to the checks,
      so the order of iteration is not kept. */
  function Members(v: PyValue): set<PyValue>
    requires Iterable(v)
  {
    match v
    case PStr(s) => set i | 0 <= i < |s| :: PStr([s[i]])
    case PUnicode(u) => set i | 0 <= i < |u| :: PUnicode([u[i]])
    case PList(items) => set i | 0 <= i < |items| :: items[i]
    case PTuple(items) => set i | 0 <= i < |items| :: items[i]
    case PSet(elems) => elems
    case PDict(entries) => entries.Keys
  }

  /** The exact classes of the members, computed without building them:
      a string's members all share its own class. */
  function MemberTypes(v: PyValue): (ts: set<PyType>)
    requires Iterable(v)
    ensures forall x | x in Members(v) :: TypeOf(x) in ts
    ensures forall t | t in ts :: exists x | x in Members(v) :: TypeOf(x) == t
  {
    match v
    case PStr(s) =>
      if |s| == 0 then {}
      else
        assert PStr([s[0]]) in Members(v);
        {StrType}
    case PUnicode(u) =>
      if |u| == 0 then {}
      else
        assert PUnicode([u[0]]) in Members(v);
        {UnicodeType}
    case PList(items) => set i | 0 <= i < |items| :: TypeOf(items[i])
    case PTuple(items) => set i | 0 <= i < |items| :: TypeOf(items[i])
    case PSet(elems) => set e | e in elems :: TypeOf(e)
    case PDict(entries) => set k | k in entries :: TypeOf(k)
  }
}
