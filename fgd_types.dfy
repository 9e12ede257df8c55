/** The data model of `include/util_fgd.hpp`: the two enumerations with their
    underlying `uint8_t` values, the generic parse-tree node `DataObject`, the
    typed records `KeyValue`, `Choice` and `ClassDefinition`, and the per-file
    result `Data`. */
module FgdTypes {
  import opened Wrappers
  import opened StringUtil

  newtype uint8 = x: int | 0 <= x < 0x100

  /** `util::fgd::ClassType`: the kind of entity class, from its declaring keyword. */
  datatype ClassType = Base | Point | NPC | Solid | KeyFrame | Move | Filter | Unknown
  {
    /** The enumerator's value: consecutive from 0, `Unknown` is the largest `uint8_t`. */
    function Code(): uint8
    {
      match this
      case Base => 0 case Point => 1 case NPC => 2 case Solid => 3
      case KeyFrame => 4 case Move => 5 case Filter => 6
      case Unknown => 255
    }
  }

  /** The named `ClassType` with a given value below 7. */
  function ClassTypeOfCode(n: uint8): (t: ClassType)
    requires n < 7
    ensures !t.Unknown?
  {
    [Base, Point, NPC, Solid, KeyFrame, Move, Filter][n]
  }

  /** `util::fgd::KeyValue::Type`: the value type of a keyvalue, input or output. */
  datatype KeyValueType =
    | Void | String | Integer | Float | Choices | Flags | Axis | Angle | Color255 | Color1
    | FilterClass | Material | NodeDest | NPCClass | Origin | PointEntityClass | Scene
    | SideList | Sound | Sprite | Studio | TargetDestination | TargetNameOrClass
    | TargetSource | VecLine | Vector
    | Unknown
  {
    /** The enumerator's value: consecutive from 0, `Unknown` is the largest `uint8_t`. */
    function Code(): uint8
    {
      match this
      case Void => 0 case String => 1 case Integer => 2 case Float => 3 case Choices => 4
      case Flags => 5 case Axis => 6 case Angle => 7 case Color255 => 8 case Color1 => 9
      case FilterClass => 10 case Material => 11 case NodeDest => 12 case NPCClass => 13
      case Origin => 14 case PointEntityClass => 15 case Scene => 16 case SideList => 17
      case Sound => 18 case Sprite => 19 case Studio => 20 case TargetDestination => 21
      case TargetNameOrClass => 22 case TargetSource => 23 case VecLine => 24 case Vector => 25
      case Unknown => 255
    }
  }

  /** The named `KeyValueType` list in declaration order. */
  const NamedKeyValueTypes: seq<KeyValueType> :=
    [ Void, String, Integer, Float, Choices, Flags, Axis, Angle, Color255, Color1,
      FilterClass, Material, NodeDest, NPCClass, Origin, PointEntityClass, Scene,
      SideList, Sound, Sprite, Studio, TargetDestination, TargetNameOrClass,
      TargetSource, VecLine, Vector ]

  /** The named `KeyValueType` with a given value below 26. */
  function KeyValueTypeOfCode(n: uint8): (t: KeyValueType)
    requires n < 26
    ensures !t.Unknown?
  {
    NamedKeyValueTypes[n]
  }

  /** Every named `ClassType` has a value below 7, each such value names exactly one,
      and `Unknown` (255) is distinct from all of them. */
  lemma ClassTypeCodes()
    ensures forall t: ClassType :: !t.Unknown? ==> t.Code() < 7
    ensures forall t: ClassType :: !t.Unknown? ==> ClassTypeOfCode(t.Code()) == t
    ensures forall n: uint8 :: n < 7 ==> ClassTypeOfCode(n).Code() == n
    ensures forall a: ClassType, b: ClassType :: a.Code() == b.Code() ==> a == b
    ensures ClassType.Unknown.Code() == 255
  {
    forall t: ClassType | !t.Unknown?
      ensures t.Code() < 7 && ClassTypeOfCode(t.Code()) == t
    {
      ClassTypeRoundTrip(t);
    }
    forall n: uint8 | n < 7 ensures ClassTypeOfCode(n).Code() == n {
      ClassCodeRoundTrip(n);
    }
    forall a: ClassType, b: ClassType | a.Code() == b.Code() ensures a == b {
      if !a.Unknown? {
        ClassTypeRoundTrip(a);
      }
      if !b.Unknown? {
        ClassTypeRoundTrip(b);
      }
    }
  }

  /** A named class type is the one its own value names. */
  lemma ClassTypeRoundTrip(t: ClassType)
    requires !t.Unknown?
    ensures t.Code() < 7 && ClassTypeOfCode(t.Code()) == t
  {
    match t
    case Base => case Point => case NPC => case Solid => case KeyFrame => case Move =>
    case Filter =>
  }

  /** The class type named by a value below 7 has that value. */
  lemma ClassCodeRoundTrip(n: uint8)
    requires n < 7
    ensures ClassTypeOfCode(n).Code() == n
  {
    assert n in {0, 1, 2, 3, 4, 5, 6};
  }

  /** Every named `KeyValueType` has a value below 26, each such value names exactly one,
      and `Unknown` (255) is distinct from all of them. */
  lemma KeyValueTypeCodes()
    ensures forall t: KeyValueType :: !t.Unknown? ==> t.Code() < 26
    ensures forall t: KeyValueType :: !t.Unknown? ==> KeyValueTypeOfCode(t.Code()) == t
    ensures forall n: uint8 :: n < 26 ==> KeyValueTypeOfCode(n).Code() == n
    ensures forall a: KeyValueType, b: KeyValueType :: a.Code() == b.Code() ==> a == b
    ensures KeyValueType.Unknown.Code() == 255
  {
    KeyValueTypesNamed();
    KeyValueCodesNamed();
    KeyValueCodesDistinct();
  }

  /** Each named type has a value below 26 that names it back. */
  lemma KeyValueTypesNamed()
    ensures forall t: KeyValueType :: !t.Unknown? ==> t.Code() < 26 && KeyValueTypeOfCode(t.Code()) == t
  {
    forall t: KeyValueType | !t.Unknown?
      ensures t.Code() < 26 && KeyValueTypeOfCode(t.Code()) == t
    {
      KeyValueTypeRoundTrip(t);
    }
  }

  /** Each value below 26 names a type with that value. */
  lemma KeyValueCodesNamed()
    ensures forall n: uint8 :: n < 26 ==> KeyValueTypeOfCode(n).Code() == n
  {
    forall n: uint8 | n < 26 ensures KeyValueTypeOfCode(n).Code() == n {
      KeyValueCodeRoundTrip(n as int);
    }
  }

  /** No two types share a value. */
  lemma KeyValueCodesDistinct()
    ensures forall a: KeyValueType, b: KeyValueType :: a.Code() == b.Code() ==> a == b
  {
    forall a: KeyValueType, b: KeyValueType | a.Code() == b.Code() ensures a == b {
      if !a.Unknown? {
        KeyValueTypeRoundTrip(a);
      }
      if !b.Unknown? {
        KeyValueTypeRoundTrip(b);
      }
    }
  }

  /** A named type is the entry of the declaration-order list at its own value. */
  lemma KeyValueTypeRoundTrip(t: KeyValueType)
    requires !t.Unknown?
    ensures t.Code() < 26 && NamedKeyValueTypes[t.Code()] == t
  {
    match t
    case Void => case String => case Integer => case Float => case Choices =>
    case Flags => case Axis => case Angle => case Color255 => case Color1 =>
    case FilterClass => case Material => case NodeDest => case NPCClass =>
    case Origin => case PointEntityClass => case Scene => case SideList =>
    case Sound => case Sprite => case Studio => case TargetDestination =>
    case TargetNameOrClass => case TargetSource => case VecLine => case Vector =>
  }

  /** The entry of the declaration-order list at position `i` has the value `i`. */
  lemma KeyValueCodeRoundTrip(i: int)
    requires 0 <= i < 26
    ensures NamedKeyValueTypes[i].Code() as int == i
  {
    if i < 7 {
      assert i in {0, 1, 2, 3, 4, 5, 6};
    } else if i < 13 {
      assert i in {7, 8, 9, 10, 11, 12};
    } else if i < 20 {
      assert i in {13, 14, 15, 16, 17, 18, 19};
    } else {
      assert i in {20, 21, 22, 23, 24, 25};
    }
  }

  /** The names `input` and `output`, in any letter case, that mark an entity's input and
      output lines: as the name of a line in a class body, and as the first attribute of
      the keyvalue the reader folds such a line into. */
  predicate IsIoMarker(name: string)
  {
    MatchesKeyword(name, "input") || MatchesKeyword(name, "output")
  }

  /** `util::fgd::DataObject`: one node of the generic parse tree. */
  datatype DataObject = DataObject(
    name: string,
    arguments: seq<string>,        // function-style arguments: name(a, b)
    parameters: seq<DataObject>,   // class parameters: base(...), size(...)
    attributes: seq<DataObject>,   // positional fields after '=' and ':'
    children: seq<DataObject>)     // the contents of a [ ... ] block

  /** `KeyValue::Choice`: one entry of a `choices` or `flags` table. */
  datatype Choice = Choice(name: string, description: string, defaultOn: bool)

  /** `util::fgd::KeyValue`, immutable once built. */
  datatype KeyValue = KeyValue(
    name: string,
    shortDescription: string,
    longDescription: string,
    defaultValue: string,
    kvType: KeyValueType,
    choices: map<string, Choice>)

  /** A `weak_ptr<ClassDefinition>`: the slot of the referenced object in the class heap. */
  type ClassId = nat

  /** `util::fgd::ClassDefinition`, immutable once built. */
  datatype ClassDefinition = ClassDefinition(
    name: string,
    description: string,
    baseClasses: seq<ClassId>,
    properties: seq<DataObject>,
    keyValues: seq<KeyValue>,
    inputs: seq<KeyValue>,
    outputs: seq<KeyValue>,
    classType: ClassType)

  /** All class definitions a load session allocated, indexed by `ClassId`. A `None`
      slot is an object whose last owner has gone, so that a `weak_ptr` to it has expired. */
  type ClassHeap = seq<Option<ClassDefinition>>

  /** `util::fgd::Data`: the result of loading one file with its includes merged in. */
  datatype Data = Data(
    mapSize: (int32, int32),
    includes: seq<string>,
    classDefinitions: map<string, ClassId>)

  /** `Data{}`: a value-initialised `Data`. */
  const EmptyData := Data((0, 0), [], map[])
}
