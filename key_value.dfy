/** `KeyValue::KeyValue(const DataObject &)` (src/util_fgd.cpp:20-115): decoding one
    keyvalue, input or output line of a class body into a typed `KeyValue`. */
module KeyValues {
  import opened Wrappers
  import opened StringUtil
  import opened FgdTypes
  import Maps

  /** The keyword, in lower case, that names each type in an FGD file. */
  function TypeKeyword(t: KeyValueType): (k: string)
    requires !t.Unknown?
  {
    match t
    case Void => "void" case String => "string" case Integer => "integer"
    case Float => "float" case Choices => "choices" case Flags => "flags"
    case Axis => "axis" case Angle => "angle" case Color255 => "color255"
    case Color1 => "color1" case FilterClass => "filterclass" case Material => "material"
    case NodeDest => "node_dest" case NPCClass => "npcclass" case Origin => "origin"
    case PointEntityClass => "pointentityclass" case Scene => "scene"
    case SideList => "sidelist" case Sound => "sound" case Sprite => "sprite"
    case Studio => "studio" case TargetDestination => "target_destination"
    case TargetNameOrClass => "target_name_or_class" case TargetSource => "target_source"
    case VecLine => "vecline" case Vector => "vector"
  }

  /** The type keyword cascade: the first keyword equal to `s` up to case decides. */
  function TypeOfKeyword(s: string): KeyValueType
  {
    TypeOfLowered(Lower(s))
  }

  /** The cascade on the lowered argument. */
  function TypeOfLowered(l: string): KeyValueType
  {
    if l == "void" then Void
    else if l == "string" then String
    else if l == "integer" then Integer
    else if l == "float" then Float
    else if l == "choices" then Choices
    else if l == "flags" then Flags
    else if l == "axis" then Axis
    else if l == "angle" then Angle
    else if l == "color255" then Color255
    else if l == "color1" then Color1
    else if l == "filterclass" then FilterClass
    else if l == "material" then Material
    else if l == "node_dest" then NodeDest
    else if l == "npcclass" then NPCClass
    else if l == "origin" then Origin
    else if l == "pointentityclass" then PointEntityClass
    else if l == "scene" then Scene
    else if l == "sidelist" then SideList
    else if l == "sound" then Sound
    else if l == "sprite" then Sprite
    else if l == "studio" then Studio
    else if l == "target_destination" then TargetDestination
    else if l == "target_name_or_class" then TargetNameOrClass
    else if l == "target_source" then TargetSource
    else if l == "vecline" then VecLine
    else if l == "vector" then Vector
    else KeyValueType.Unknown
  }

  /** The cascade recognises a type only from that type's keyword. */
  lemma TypeOfLoweredSound(l: string, t: KeyValueType)
    requires t == TypeOfLowered(l) && !t.Unknown?
    ensures l == TypeKeyword(t)
  {
    if l == "void" || l == "string" || l == "integer" || l == "float" || l == "choices"
      || l == "flags" || l == "axis" || l == "angle" || l == "color255" {
      TypeOfLoweredSound1(l, t);
    } else if l == "color1" || l == "filterclass" || l == "material" || l == "node_dest"
      || l == "npcclass" || l == "origin" || l == "pointentityclass" || l == "scene"
      || l == "sidelist" {
      TypeOfLoweredSound2(l, t);
    } else if l == "sound" || l == "sprite" || l == "studio" || l == "target_destination"
      || l == "target_name_or_class" || l == "target_source" || l == "vecline"
      || l == "vector" {
      TypeOfLoweredSound3(l, t);
    } else {
      TypeOfLoweredNone(l);
    }
  }

  /** The cascade on the first nine keywords. */
  lemma TypeOfLoweredSound1(l: string, t: KeyValueType)
    requires t == TypeOfLowered(l)
    requires l == "void" || l == "string" || l == "integer" || l == "float"
      || l == "choices" || l == "flags" || l == "axis" || l == "angle" || l == "color255"
    ensures l == TypeKeyword(t)
  {
    if l == "void" {
      assert t == Void;
    } else if l == "string" {
      assert t == String;
    } else if l == "integer" {
      assert t == Integer;
    } else if l == "float" {
      assert t == Float;
    } else if l == "choices" {
      assert t == Choices;
    } else if l == "flags" {
      assert t == Flags;
    } else if l == "axis" {
      assert t == Axis;
    } else if l == "angle" {
      assert t == Angle;
    } else if l == "color255" {
      assert t == Color255;
    }
  }

  /** The cascade on the next nine keywords, once the first nine are excluded. */
  lemma TypeOfLoweredSound2(l: string, t: KeyValueType)
    requires t == TypeOfLowered(l)
    requires l != "void" && l != "string" && l != "integer" && l != "float"
      && l != "choices" && l != "flags" && l != "axis" && l != "angle" && l != "color255"
    requires l == "color1" || l == "filterclass" || l == "material" || l == "node_dest"
      || l == "npcclass" || l == "origin" || l == "pointentityclass" || l == "scene"
      || l == "sidelist"
    ensures l == TypeKeyword(t)
  {
    if l == "color1" {
      assert t == Color1;
    } else if l == "filterclass" {
      assert t == FilterClass;
    } else if l == "material" {
      assert t == Material;
    } else if l == "node_dest" {
      assert t == NodeDest;
    } else if l == "npcclass" {
      assert t == NPCClass;
    } else if l == "origin" {
      assert t == Origin;
    } else if l == "pointentityclass" {
      assert t == PointEntityClass;
    } else if l == "scene" {
      assert t == Scene;
    } else if l == "sidelist" {
      assert t == SideList;
    }
  }

  /** The cascade on the last eight keywords, once the others are excluded. */
  lemma TypeOfLoweredSound3(l: string, t: KeyValueType)
    requires t == TypeOfLowered(l)
    requires l != "void" && l != "string" && l != "integer" && l != "float"
      && l != "choices" && l != "flags" && l != "axis" && l != "angle" && l != "color255"
      && l != "color1" && l != "filterclass" && l != "material" && l != "node_dest"
      && l != "npcclass" && l != "origin" && l != "pointentityclass" && l != "scene"
      && l != "sidelist"
    requires l == "sound" || l == "sprite" || l == "studio" || l == "target_destination"
      || l == "target_name_or_class" || l == "target_source" || l == "vecline"
      || l == "vector"
    ensures l == TypeKeyword(t)
  {
    if l == "sound" {
      assert t == Sound;
    } else if l == "sprite" {
      assert t == Sprite;
    } else if l == "studio" {
      assert t == Studio;
    } else if l == "target_destination" {
      assert t == TargetDestination;
    } else if l == "target_name_or_class" {
      assert t == TargetNameOrClass;
    } else if l == "target_source" {
      assert t == TargetSource;
    } else if l == "vecline" {
      assert t == VecLine;
    } else if l == "vector" {
      assert t == Vector;
    }
  }

  /** A string that is no type's keyword falls through the whole cascade. */
  lemma TypeOfLoweredNone(l: string)
    requires l != "void" && l != "string" && l != "integer" && l != "float"
      && l != "choices" && l != "flags" && l != "axis" && l != "angle" && l != "color255"
      && l != "color1" && l != "filterclass" && l != "material" && l != "node_dest"
      && l != "npcclass" && l != "origin" && l != "pointentityclass" && l != "scene"
      && l != "sidelist" && l != "sound" && l != "sprite" && l != "studio"
      && l != "target_destination" && l != "target_name_or_class" && l != "target_source"
      && l != "vecline" && l != "vector"
    ensures TypeOfLowered(l).Unknown?
  {
  }

  /** Each type's keyword makes the cascade yield that type. */
  lemma TypeOfLoweredComplete(l: string, t: KeyValueType)
    requires !t.Unknown? && l == TypeKeyword(t)
    ensures TypeOfLowered(l) == t
  {
    if t == Void || t == String || t == Integer || t == Float || t == Choices || t == Flags
      || t == Axis || t == Angle || t == Color255 || t == Color1 {
      TypeOfLoweredComplete1(l, t);
    } else if t == FilterClass || t == Material || t == NodeDest || t == NPCClass
      || t == Origin || t == PointEntityClass {
      TypeOfLoweredComplete2(l, t);
    } else if t == Scene || t == SideList || t == Sound || t == Sprite {
      TypeOfLoweredComplete3(l, t);
    } else if t == Studio || t == TargetDestination || t == TargetNameOrClass {
      TypeOfLoweredComplete4(l, t);
    } else {
      TypeOfLoweredComplete5(l, t);
    }
  }

  /** The cascade on the keywords of `Void` to `Color1`. */
  lemma TypeOfLoweredComplete1(l: string, t: KeyValueType)
    requires t == Void || t == String || t == Integer || t == Float || t == Choices
      || t == Flags || t == Axis || t == Angle || t == Color255 || t == Color1
    requires l == TypeKeyword(t)
    ensures TypeOfLowered(l) == t
  {
    if t == Void {
      assert TypeOfLowered(l) == Void;
    } else if t == String {
      assert TypeOfLowered(l) == String;
    } else if t == Integer {
      assert TypeOfLowered(l) == Integer;
    } else if t == Float {
      assert TypeOfLowered(l) == Float;
    } else if t == Choices {
      assert TypeOfLowered(l) == Choices;
    } else if t == Flags {
      assert TypeOfLowered(l) == Flags;
    } else if t == Axis {
      assert TypeOfLowered(l) == Axis;
    } else if t == Angle {
      assert TypeOfLowered(l) == Angle;
    } else if t == Color255 {
      assert TypeOfLowered(l) == Color255;
    } else if t == Color1 {
      assert TypeOfLowered(l) == Color1;
    }
  }

  /** The cascade on the keywords of `FilterClass` to `PointEntityClass`. */
  lemma TypeOfLoweredComplete2(l: string, t: KeyValueType)
    requires t == FilterClass || t == Material || t == NodeDest || t == NPCClass
      || t == Origin || t == PointEntityClass
    requires l == TypeKeyword(t)
    ensures TypeOfLowered(l) == t
  {
    if t == FilterClass {
      assert TypeOfLowered(l) == FilterClass;
    } else if t == Material {
      assert TypeOfLowered(l) == Material;
    } else if t == NodeDest {
      assert TypeOfLowered(l) == NodeDest;
    } else if t == NPCClass {
      assert TypeOfLowered(l) == NPCClass;
    } else if t == Origin {
      assert TypeOfLowered(l) == Origin;
    } else if t == PointEntityClass {
      assert TypeOfLowered(l) == PointEntityClass;
    }
  }

  /** The cascade on the keywords of `Scene` to `Sprite`. */
  lemma TypeOfLoweredComplete3(l: string, t: KeyValueType)
    requires t == Scene || t == SideList || t == Sound || t == Sprite
    requires l == TypeKeyword(t)
    ensures TypeOfLowered(l) == t
  {
    if t == Scene {
      assert TypeOfLowered(l) == Scene;
    } else if t == SideList {
      assert TypeOfLowered(l) == SideList;
    } else if t == Sound {
      assert TypeOfLowered(l) == Sound;
    } else if t == Sprite {
      assert TypeOfLowered(l) == Sprite;
    }
  }

  /** The cascade on the keywords of `Studio` to `TargetNameOrClass`. */
  lemma TypeOfLoweredComplete4(l: string, t: KeyValueType)
    requires t == Studio || t == TargetDestination || t == TargetNameOrClass
    requires l == TypeKeyword(t)
    ensures TypeOfLowered(l) == t
  {
    if t == Studio {
      assert TypeOfLowered(l) == Studio;
    } else if t == TargetDestination {
      assert TypeOfLowered(l) == TargetDestination;
    } else if t == TargetNameOrClass {
      assert TypeOfLowered(l) == TargetNameOrClass;
    }
  }

  /** The cascade on the keywords of `TargetSource` to `Vector`. */
  lemma TypeOfLoweredComplete5(l: string, t: KeyValueType)
    requires t == TargetSource || t == VecLine || t == Vector
    requires l == TypeKeyword(t)
    ensures TypeOfLowered(l) == t
  {
    if t == TargetSource {
      assert TypeOfLowered(l) == TargetSource;
    } else if t == VecLine {
      assert TypeOfLowered(l) == VecLine;
    } else if t == Vector {
      assert TypeOfLowered(l) == Vector;
    }
  }

  /** A recognised type is the one whose keyword the string spells in some letter case. */
  lemma TypeOfKeywordSound(s: string)
    ensures !TypeOfKeyword(s).Unknown? ==> MatchesKeyword(s, TypeKeyword(TypeOfKeyword(s)))
  {
    if !TypeOfKeyword(s).Unknown? {
      TypeOfLoweredSound(Lower(s), TypeOfKeyword(s));
    }
  }

  /** A string spelling a type's keyword, in any letter case, names that type. */
  lemma TypeOfKeywordComplete(s: string, t: KeyValueType)
    requires !t.Unknown? && MatchesKeyword(s, TypeKeyword(t))
    ensures TypeOfKeyword(s) == t
  {
    TypeOfLoweredComplete(Lower(s), t);
  }

  /** Round trip of the keyword table: `arguments[0]` names type `t` exactly when it spells
      `t`'s keyword in some letter case, and names `Unknown` exactly when it spells none. */
  lemma TypeOfKeywordSpec(s: string, t: KeyValueType)
    requires !t.Unknown?
    ensures TypeOfKeyword(s) == t <==> MatchesKeyword(s, TypeKeyword(t))
    ensures TypeOfKeyword(s).Unknown? <==>
              forall u: KeyValueType :: !u.Unknown? ==> !MatchesKeyword(s, TypeKeyword(u))
  {
    TypeOfKeywordSound(s);
    if MatchesKeyword(s, TypeKeyword(t)) {
      TypeOfKeywordComplete(s, t);
    }
    forall u: KeyValueType | !u.Unknown? && MatchesKeyword(s, TypeKeyword(u))
      ensures !TypeOfKeyword(s).Unknown?
    {
      TypeOfKeywordComplete(s, u);
    }
  }

  /** The marker the block reader puts first among the attributes of an input or output
      line: an attribute named `input` or `output` in some letter case. */
  predicate IsSpecializer(attribute: DataObject)
  {
    IsIoMarker(attribute.name)
  }

  /** The name of the attribute at position `i`, or the empty string when there is none. */
  function AttributeName(attributes: seq<DataObject>, i: nat): string
  {
    if i < |attributes| then attributes[i].name else ""
  }

  /** The attributes that carry descriptions: all of them, less a leading specializer. */
  function DescriptionAttributes(obj: DataObject): (r: seq<DataObject>)
    ensures r == obj.attributes || (|obj.attributes| > 0 && r == obj.attributes[1..])
  {
    if |obj.attributes| > 0 && IsSpecializer(obj.attributes[0]) then obj.attributes[1..]
    else obj.attributes
  }

  /** The type named by `arguments[0]`; `Unknown` when there are no arguments. */
  function TypeOfArguments(arguments: seq<string>): KeyValueType
  {
    if |arguments| == 0 then KeyValueType.Unknown else TypeOfKeyword(arguments[0])
  }

  predicate HasChoices(t: KeyValueType)
  {
    t == Choices || t == Flags
  }

  /** One entry of a `choices`/`flags` table, from the attributes of one child line
      (`value : "description" : defaultOn`). */
  function ChoiceOf(t: KeyValueType, child: DataObject): Choice
  {
    var attrs := child.attributes;
    Choice(AttributeName(attrs, 0), AttributeName(attrs, 1),
           |attrs| > 2 && t == Flags && ToBoolean(attrs[2].name))
  }

  /** The table built by inserting every child, in order, under its own name; an
      insertion under a name already present changes nothing. */
  function ChoicesOf(t: KeyValueType, children: seq<DataObject>): map<string, Choice>
    decreases |children|
  {
    if |children| == 0 then map[]
    else
      var last := children[|children| - 1];
      Maps.Insert(ChoicesOf(t, children[..|children| - 1]), last.name, ChoiceOf(t, last))
  }

  /** The `KeyValue` the constructor builds from a node. */
  function KeyValueOf(obj: DataObject): KeyValue
  {
    var desc := DescriptionAttributes(obj);
    var t := TypeOfArguments(obj.arguments);
    KeyValue(obj.name, AttributeName(desc, 0), AttributeName(desc, 2), AttributeName(desc, 1), t,
             if HasChoices(t) then ChoicesOf(t, obj.children) else map[])
  }

  predicate HasChildNamed(children: seq<DataObject>, k: string)
  {
    exists i :: 0 <= i < |children| && children[i].name == k
  }

  /** The first child with a given name is the one before which no child has that name. */
  predicate FirstWithName(children: seq<DataObject>, i: nat)
    requires i < |children|
  {
    forall j :: 0 <= j < i ==> children[j].name != children[i].name
  }

  /** The table has one entry per distinct child name. */
  lemma {:induction false} ChoicesOfKeys(t: KeyValueType, children: seq<DataObject>)
    ensures forall k :: k in ChoicesOf(t, children) <==> HasChildNamed(children, k)
  {
    if |children| > 0 {
      var n := |children| - 1;
      var init := children[..n];
      ChoicesOfKeys(t, init);
      forall k | HasChildNamed(children, k) && k != children[n].name
        ensures HasChildNamed(init, k)
      {
        var j :| 0 <= j < |children| && children[j].name == k;
        assert init[j].name == k;
      }
      forall k | HasChildNamed(init, k) ensures HasChildNamed(children, k) {
        var j :| 0 <= j < |init| && init[j].name == k;
        assert children[j].name == k;
      }
      assert HasChildNamed(children, children[n].name);
    }
  }

  /** The entry for a name is the choice of the FIRST child carrying it: later children
      with the same name leave it alone. */
  lemma {:induction false} ChoicesOfFirstWins(t: KeyValueType, children: seq<DataObject>, i: nat)
    requires i < |children| && FirstWithName(children, i)
    ensures children[i].name in ChoicesOf(t, children)
    ensures ChoicesOf(t, children)[children[i].name] == ChoiceOf(t, children[i])
  {
    var n := |children| - 1;
    if i < n {
      FirstWithNameInPrefix(children, i);
      ChoicesOfFirstWins(t, children[..n], i);
      ChoicesOfKeepsEarlier(t, children, children[i].name);
    } else {
      ChoicesOfNewLast(t, children);
    }
  }

  /** The first child with its name is still the first one in a prefix that keeps it. */
  lemma FirstWithNameInPrefix(children: seq<DataObject>, i: nat)
    requires i < |children| - 1 && FirstWithName(children, i)
    ensures var init := children[..|children| - 1];
            init[i] == children[i] && FirstWithName(init, i)
  {
    var init := children[..|children| - 1];
    forall j | 0 <= j < i ensures init[j].name != init[i].name {
      assert init[j] == children[j];
    }
  }

  /** An entry made by the earlier children survives the last one. */
  lemma ChoicesOfKeepsEarlier(t: KeyValueType, children: seq<DataObject>, k: string)
    requires |children| > 0 && k in ChoicesOf(t, children[..|children| - 1])
    ensures k in ChoicesOf(t, children)
    ensures ChoicesOf(t, children)[k] == ChoicesOf(t, children[..|children| - 1])[k]
  {
  }

  /** The last child makes the entry of a name no earlier child carries. */
  lemma ChoicesOfNewLast(t: KeyValueType, children: seq<DataObject>)
    requires |children| > 0 && FirstWithName(children, |children| - 1)
    ensures var last := children[|children| - 1];
            last.name in ChoicesOf(t, children) && ChoicesOf(t, children)[last.name] == ChoiceOf(t, last)
  {
    var init := children[..|children| - 1];
    ChoicesOfKeys(t, init);
    assert !HasChildNamed(init, children[|children| - 1].name);
  }

  /** Choices are collected only for `choices` and `flags` keyvalues; then there is one
      entry per distinct child name, holding the first such child's value and description,
      and `defaultOn` is set only in a `flags` table from a third attribute that reads true. */
  lemma KeyValueChoices(obj: DataObject)
    ensures !HasChoices(KeyValueOf(obj).kvType) ==> KeyValueOf(obj).choices == map[]
    ensures HasChoices(KeyValueOf(obj).kvType) ==>
              forall k :: k in KeyValueOf(obj).choices <==> HasChildNamed(obj.children, k)
    ensures forall i :: 0 <= i < |obj.children| && FirstWithName(obj.children, i) &&
                        HasChoices(KeyValueOf(obj).kvType) ==>
              obj.children[i].name in KeyValueOf(obj).choices &&
              var c := KeyValueOf(obj).choices[obj.children[i].name];
              var attrs := obj.children[i].attributes;
              && c.name == AttributeName(attrs, 0)
              && c.description == AttributeName(attrs, 1)
              && (c.defaultOn <==> KeyValueOf(obj).kvType == Flags && |attrs| > 2 && ToBoolean(attrs[2].name))
  {
    var t := KeyValueOf(obj).kvType;
    ChoicesOfKeys(t, obj.children);
    forall i | 0 <= i < |obj.children| && FirstWithName(obj.children, i) && HasChoices(t)
      ensures obj.children[i].name in KeyValueOf(obj).choices
      ensures KeyValueOf(obj).choices[obj.children[i].name] == ChoiceOf(t, obj.children[i])
    {
      ChoicesOfFirstWins(t, obj.children, i);
    }
  }

  /** Positional decoding: a leading `input`/`output` marker is skipped, the remaining
      attributes give the short description, the default value and the long description
      in that order, and missing positions stay empty. */
  lemma KeyValueDescriptions(obj: DataObject)
    ensures var skip := if |obj.attributes| > 0 && IsSpecializer(obj.attributes[0]) then 1 else 0;
            var kv := KeyValueOf(obj);
            && kv.name == obj.name
            && kv.shortDescription == AttributeName(obj.attributes, skip)
            && kv.defaultValue == AttributeName(obj.attributes, skip + 1)
            && kv.longDescription == AttributeName(obj.attributes, skip + 2)
  {
  }

  /** Without arguments the type stays the header's default `Unknown`, whatever the
      attributes, and no choices are collected. */
  lemma KeyValueWithoutArguments(obj: DataObject)
    requires obj.arguments == []
    ensures KeyValueOf(obj).kvType == KeyValueType.Unknown && KeyValueOf(obj).choices == map[]
  {
  }

  /** With no attributes and no arguments every field keeps its default from the header:
      empty strings, type `Unknown` and no choices. */
  lemma KeyValueDefaults(obj: DataObject)
    requires obj.attributes == [] && obj.arguments == []
    ensures KeyValueOf(obj) == KeyValue(obj.name, "", "", "", KeyValueType.Unknown, map[])
  {
  }

  /** One more child is inserted under its name, unless the name is already there. */
  lemma ChoicesOfPrefixStep(t: KeyValueType, children: seq<DataObject>, i: nat)
    requires i < |children|
    ensures ChoicesOf(t, children[..i + 1])
            == Maps.Insert(ChoicesOf(t, children[..i]), children[i].name, ChoiceOf(t, children[i]))
  {
    assert children[..i + 1][..i] == children[..i];
  }

  /** The body of the choices loop: `value`, `desc` and `defaultOn` from one child. */
  method ReadChoice(t: KeyValueType, child: DataObject) returns (choice: Choice)
    ensures choice == ChoiceOf(t, child)
  {
    var value, desc, defaultOn := "", "", false;
    if |child.attributes| > 0 {
      value := child.attributes[0].name;
      if |child.attributes| > 1 {
        desc := child.attributes[1].name;
        if |child.attributes| > 2 && t == Flags {
          defaultOn := ToBoolean(child.attributes[2].name);
        }
      }
    }
    choice := Choice(value, desc, defaultOn);
  }

  /** The loop of the constructor that fills the choices table of a `choices` or `flags`
      keyvalue from its children. */
  method CollectChoices(t: KeyValueType, children: seq<DataObject>) returns (choices: map<string, Choice>)
    ensures choices == ChoicesOf(t, children)
  {
    choices := map[];
    var i := 0;
    while i < |children|
      invariant 0 <= i <= |children|
      invariant choices == ChoicesOf(t, children[..i])
    {
      var child := children[i];
      var choice := ReadChoice(t, child);
      ChoicesOfPrefixStep(t, children, i);
      if child.name !in choices {
        choices := choices[child.name := choice];
      }
      i := i + 1;
    }
    assert children[..i] == children;
  }

  /** `KeyValue::KeyValue(const DataObject &)`: fills the fields of a fresh keyvalue from
      the node, then collects the choices for `choices` and `flags` types. */
  method NewKeyValue(obj: DataObject) returns (kv: KeyValue)
    ensures kv == KeyValueOf(obj)
  {
    var shortDesc, defaultValue, longDesc := ReadDescriptions(obj);
    var t := KeyValueType.Unknown;
    if |obj.arguments| > 0 {
      t := TypeOfKeyword(obj.arguments[0]);
    }
    var choices: map<string, Choice> := map[];
    if t == Choices || t == Flags {
      choices := CollectChoices(t, obj.children);
    }
    kv := KeyValue(obj.name, shortDesc, longDesc, defaultValue, t, choices);
  }

  /** The positional fields of the constructor: a leading specializer is skipped, then the
      next three attributes are read while there are any. */
  method ReadDescriptions(obj: DataObject) returns (shortDesc: string, defaultValue: string, longDesc: string)
    ensures var desc := DescriptionAttributes(obj);
            shortDesc == AttributeName(desc, 0) && defaultValue == AttributeName(desc, 1)
            && longDesc == AttributeName(desc, 2)
  {
    shortDesc, defaultValue, longDesc := "", "", "";
    var numAttrs := |obj.attributes|;
    var idx := 0;
    if numAttrs > 0 && IsSpecializer(obj.attributes[0]) {
      idx := idx + 1;
    }
    assert obj.attributes[idx..] == DescriptionAttributes(obj);
    if numAttrs > idx {
      shortDesc := obj.attributes[idx].name;
      idx := idx + 1;
      if numAttrs > idx {
        defaultValue := obj.attributes[idx].name;
        idx := idx + 1;
        if numAttrs > idx {
          longDesc := obj.attributes[idx].name;
          idx := idx + 1;
        }
      }
    }
  }
}
