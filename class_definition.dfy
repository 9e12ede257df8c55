/** `ClassDefinition::ClassDefinition(const Data &, const DataObject &)` and the inherited
    lookups `FindKeyValue`, `FindInput` and `FindOutput` (src/util_fgd.cpp:123-213). */
module ClassDefinitions {
  import opened Wrappers
  import opened StringUtil
  import opened FgdTypes
  import opened KeyValues

  /** The declaring keyword of each named class type, in lower case. */
  function ClassKeyword(t: ClassType): string
    requires !t.Unknown?
  {
    match t
    case Base => "@baseclass" case Point => "@pointclass" case NPC => "@npcclass"
    case Solid => "@solidclass" case KeyFrame => "@keyframeclass" case Move => "@moveclass"
    case Filter => "@filterclass"
  }

  /** The class type cascade on the declaration's name. */
  function ClassTypeOfKeyword(s: string): ClassType
  {
    var l := Lower(s);
    if l == "@baseclass" then Base
    else if l == "@pointclass" then Point
    else if l == "@npcclass" then NPC
    else if l == "@solidclass" then Solid
    else if l == "@keyframeclass" then KeyFrame
    else if l == "@moveclass" then Move
    else if l == "@filterclass" then Filter
    else ClassType.Unknown
  }

  /** A declaration has class type `t` exactly when its name spells `t`'s keyword in some
      letter case; any other name keeps the header's default, `Unknown`. */
  lemma ClassTypeOfKeywordSpec(s: string, t: ClassType)
    requires !t.Unknown?
    ensures ClassTypeOfKeyword(s) == t <==> MatchesKeyword(s, ClassKeyword(t))
    ensures ClassTypeOfKeyword(s).Unknown? <==>
              forall u: ClassType :: !u.Unknown? ==> !MatchesKeyword(s, ClassKeyword(u))
  {
    forall u: ClassType | !u.Unknown? && MatchesKeyword(s, ClassKeyword(u))
      ensures ClassTypeOfKeyword(s) == u
    {
      match u
      case Base => case Point => case NPC => case Solid => case KeyFrame => case Move =>
      case Filter =>
    }
  }

  /** Which of a class's three lists a child line belongs to (the private
      `ClassDefinition::KeyValueType`). */
  datatype ListKind = KeyValueList | InputList | OutputList

  /** A child is an input or an output when its first attribute is the `input` or
      `output` marker, and a plain keyvalue otherwise. */
  function KindOf(child: DataObject): ListKind
  {
    if |child.attributes| > 0 && MatchesKeyword(child.attributes[0].name, "input") then InputList
    else if |child.attributes| > 0 && MatchesKeyword(child.attributes[0].name, "output") then OutputList
    else KeyValueList
  }

  /** The keyvalues built from the children of one kind, in source order. */
  function Partition(children: seq<DataObject>, kind: ListKind): seq<KeyValue>
    decreases |children|
  {
    if |children| == 0 then []
    else
      var last := children[|children| - 1];
      Partition(children[..|children| - 1], kind) + (if KindOf(last) == kind then [KeyValueOf(last)] else [])
  }

  /** The arguments of the first parameter named `base`, if there is one. */
  function BaseArguments(parameters: seq<DataObject>): Option<seq<string>>
    decreases |parameters|
  {
    if |parameters| == 0 then None
    else if MatchesKeyword(parameters[0].name, "base") then Some(parameters[0].arguments)
    else BaseArguments(parameters[1..])
  }

  /** The table entries of the base names that the table knows, in argument order. */
  function ResolveBases(table: map<string, ClassId>, names: seq<string>): seq<ClassId>
    decreases |names|
  {
    if |names| == 0 then []
    else
      var last := Lower(names[|names| - 1]);
      ResolveBases(table, names[..|names| - 1]) + (if last in table then [table[last]] else [])
  }

  /** The class definition the constructor builds from a declaration node, with the base
      classes looked up in the table accumulated so far. */
  function ClassDefinitionOf(table: map<string, ClassId>, obj: DataObject): ClassDefinition
  {
    ClassDefinition(
      AttributeName(obj.attributes, 0),
      AttributeName(obj.attributes, 1),
      match BaseArguments(obj.parameters)
      case None => []
      case Some(args) => ResolveBases(table, args),
      obj.parameters,
      Partition(obj.children, KeyValueList),
      Partition(obj.children, InputList),
      Partition(obj.children, OutputList),
      ClassTypeOfKeyword(obj.name))
  }

  /** The keyvalue of every child, in source order. */
  function AllKeyValues(children: seq<DataObject>): (r: seq<KeyValue>)
    ensures |r| == |children|
    ensures forall i :: 0 <= i < |children| ==> r[i] == KeyValueOf(children[i])
    decreases |children|
  {
    if |children| == 0 then []
    else
      var init := AllKeyValues(children[..|children| - 1]);
      MapSnoc(children, init, KeyValueOf);
      init + [KeyValueOf(children[|children| - 1])]
  }

  /** Mapping all but the last element, then the last one, maps every element. */
  lemma MapSnoc<A, B>(xs: seq<A>, init: seq<B>, f: A -> B)
    requires |xs| > 0 && |init| == |xs| - 1
    requires forall i :: 0 <= i < |init| ==> init[i] == f(xs[..|xs| - 1][i])
    ensures var r := init + [f(xs[|xs| - 1])];
            forall i :: 0 <= i < |xs| ==> r[i] == f(xs[i])
  {
    var r := init + [f(xs[|xs| - 1])];
    forall i | 0 <= i < |xs| ensures r[i] == f(xs[i]) {
      if i < |init| {
        assert xs[..|xs| - 1][i] == xs[i];
      }
    }
  }

  /** One more child extends the list of its own kind and leaves the other two alone. */
  lemma PartitionPrefixStep(children: seq<DataObject>, c: nat)
    requires c < |children|
    ensures var kv, kind := KeyValueOf(children[c]), KindOf(children[c]);
            && Partition(children[..c + 1], KeyValueList)
               == Partition(children[..c], KeyValueList) + (if kind == KeyValueList then [kv] else [])
            && Partition(children[..c + 1], InputList)
               == Partition(children[..c], InputList) + (if kind == InputList then [kv] else [])
            && Partition(children[..c + 1], OutputList)
               == Partition(children[..c], OutputList) + (if kind == OutputList then [kv] else [])
  {
    assert children[..c + 1][..c] == children[..c];
  }

  lemma PartitionLast(children: seq<DataObject>)
    requires |children| > 0
    ensures var n := |children| - 1;
            var kv, kind := KeyValueOf(children[n]), KindOf(children[n]);
            && Partition(children, KeyValueList)
               == Partition(children[..n], KeyValueList) + (if kind == KeyValueList then [kv] else [])
            && Partition(children, InputList)
               == Partition(children[..n], InputList) + (if kind == InputList then [kv] else [])
            && Partition(children, OutputList)
               == Partition(children[..n], OutputList) + (if kind == OutputList then [kv] else [])
            && AllKeyValues(children) == AllKeyValues(children[..n]) + [kv]
  {
  }

  /** Adding an element to the list of its kind keeps the three lists together holding
      `all`, extended by that element. */
  lemma MultisetSumSnoc<T>(k: seq<T>, i: seq<T>, o: seq<T>, all: seq<T>, x: T, kind: ListKind,
                           k': seq<T>, i': seq<T>, o': seq<T>, all': seq<T>)
    requires multiset(k) + multiset(i) + multiset(o) == multiset(all)
    requires all' == all + [x]
    requires k' == k + (if kind == KeyValueList then [x] else [])
    requires i' == i + (if kind == InputList then [x] else [])
    requires o' == o + (if kind == OutputList then [x] else [])
    ensures multiset(k') + multiset(i') + multiset(o') == multiset(all')
  {
    assert multiset(all + [x]) == multiset(all) + multiset{x};
    match kind
    case KeyValueList => assert multiset(k') == multiset(k) + multiset{x};
    case InputList => assert multiset(i') == multiset(i) + multiset{x};
    case OutputList => assert multiset(o') == multiset(o) + multiset{x};
  }

  /** Every child lands in exactly one of the three lists, so together they hold one
      keyvalue per child. */
  lemma {:induction false} PartitionIsExact(children: seq<DataObject>)
    ensures multiset(Partition(children, KeyValueList)) + multiset(Partition(children, InputList))
              + multiset(Partition(children, OutputList))
            == multiset(AllKeyValues(children))
    decreases |children|
  {
    if |children| > 0 {
      var n := |children| - 1;
      var init := children[..n];
      PartitionIsExact(init);
      PartitionLast(children);
      MultisetSumSnoc(Partition(init, KeyValueList), Partition(init, InputList), Partition(init, OutputList),
                      AllKeyValues(init), KeyValueOf(children[n]), KindOf(children[n]),
                      Partition(children, KeyValueList), Partition(children, InputList),
                      Partition(children, OutputList), AllKeyValues(children));
    }
  }

  /** Together the three lists hold one keyvalue per child. */
  lemma PartitionLengths(children: seq<DataObject>)
    ensures |Partition(children, KeyValueList)| + |Partition(children, InputList)|
              + |Partition(children, OutputList)| == |children|
  {
    PartitionIsExact(children);
    var k, i, o := Partition(children, KeyValueList), Partition(children, InputList),
                   Partition(children, OutputList);
    assert |multiset(k) + multiset(i) + multiset(o)| == |multiset(AllKeyValues(children))|;
  }

  /** Partitioning distributes over concatenation. */
  lemma {:induction false} PartitionAppend(a: seq<DataObject>, b: seq<DataObject>, kind: ListKind)
    ensures Partition(a + b, kind) == Partition(a, kind) + Partition(b, kind)
    decreases |b|
  {
    if |b| == 0 {
      assert a + b == a;
    } else {
      var n := |b| - 1;
      assert (a + b)[..|a + b| - 1] == a + b[..n];
      assert (a + b)[|a + b| - 1] == b[n];
      PartitionAppend(a, b[..n], kind);
    }
  }

  /** Source order is kept: the list of one kind is the children of that kind, in order. */
  lemma PartitionKeepsOrder(children: seq<DataObject>, kind: ListKind, i: nat)
    requires i < |children| && KindOf(children[i]) == kind
    ensures Partition(children, kind)
            == Partition(children[..i], kind) + [KeyValueOf(children[i])] + Partition(children[i + 1..], kind)
    ensures var before := Partition(children[..i], kind);
            |before| < |Partition(children, kind)| && Partition(children, kind)[|before|] == KeyValueOf(children[i])
  {
    var pre, c, post := children[..i], children[i], children[i + 1..];
    assert children == pre + [c] + post;
    PartitionAppend(pre + [c], post, kind);
    PartitionAppend(pre, [c], kind);
    assert [c][..0] == [];
    assert Partition([c], kind) == [KeyValueOf(c)];
  }

  /** A line whose first attribute is the `output` marker, as the block reader produces
      for an `output` line, is filed under outputs only. */
  lemma OutputLineIsFiledAsOutput(child: DataObject)
    requires |child.attributes| > 0 && MatchesKeyword(child.attributes[0].name, "output")
    ensures KindOf(child) == OutputList
    ensures var kv := KeyValueOf(child);
            kv.shortDescription == AttributeName(child.attributes, 1)
  {
  }

  /** The base parameter is the first parameter named `base` in some letter case. */
  lemma {:induction false} BaseArgumentsIsFirst(parameters: seq<DataObject>)
    ensures BaseArguments(parameters).None? <==>
              forall i :: 0 <= i < |parameters| ==> !MatchesKeyword(parameters[i].name, "base")
    ensures BaseArguments(parameters).Some? ==>
              exists i :: 0 <= i < |parameters| && MatchesKeyword(parameters[i].name, "base")
                && BaseArguments(parameters).value == parameters[i].arguments
                && forall j :: 0 <= j < i ==> !MatchesKeyword(parameters[j].name, "base")
    decreases |parameters|
  {
    if |parameters| > 0 && !MatchesKeyword(parameters[0].name, "base") {
      var tail := parameters[1..];
      BaseArgumentsIsFirst(tail);
      if BaseArguments(tail).Some? {
        var i :| 0 <= i < |tail| && MatchesKeyword(tail[i].name, "base")
                 && BaseArguments(tail).value == tail[i].arguments
                 && forall j :: 0 <= j < i ==> !MatchesKeyword(tail[j].name, "base");
        assert parameters[i + 1] == tail[i];
        assert forall j :: 0 < j < i + 1 ==> parameters[j] == tail[j - 1];
      } else {
        assert forall i :: 1 <= i < |parameters| ==> parameters[i] == tail[i - 1];
      }
    } else if |parameters| > 0 {
      assert MatchesKeyword(parameters[0].name, "base");
    }
  }

  /** Base resolution at a glance: every resolved base is the table entry of one of the
      names; when the table knows every name, each is resolved in order; when it knows
      none, nothing is resolved. `ResolveBasesAround` fixes the result for any mix. */
  lemma {:induction false} ResolveBasesSpec(table: map<string, ClassId>, names: seq<string>)
    ensures |ResolveBases(table, names)| <= |names|
    ensures forall c :: c in ResolveBases(table, names) ==>
              exists i :: 0 <= i < |names| && Lower(names[i]) in table && table[Lower(names[i])] == c
    ensures (forall i :: 0 <= i < |names| ==> Lower(names[i]) in table) ==>
              |ResolveBases(table, names)| == |names| &&
              forall i :: 0 <= i < |names| ==> ResolveBases(table, names)[i] == table[Lower(names[i])]
    ensures (forall i :: 0 <= i < |names| ==> Lower(names[i]) !in table) ==> ResolveBases(table, names) == []
    decreases |names|
  {
    if |names| > 0 {
      var n := |names| - 1;
      var init := names[..n];
      ResolveBasesSpec(table, init);
      assert forall i :: 0 <= i < n ==> init[i] == names[i];
    }
  }

  /** Resolving two runs of names one after the other is resolving them at once: each name
      contributes on its own, in argument order. */
  lemma {:induction false} ResolveBasesAppend(table: map<string, ClassId>, a: seq<string>, b: seq<string>)
    ensures ResolveBases(table, a + b) == ResolveBases(table, a) + ResolveBases(table, b)
    decreases |b|
  {
    if |b| > 0 {
      var n := |b| - 1;
      assert (a + b)[..|a + b| - 1] == a + b[..n];
      assert (a + b)[|a + b| - 1] == b[n];
      ResolveBasesAppend(table, a, b[..n]);
    } else {
      assert a + b == a;
    }
  }

  /** One name resolves to its lowercased table entry when the table knows it, and to
      nothing otherwise. */
  lemma ResolveBasesOne(table: map<string, ClassId>, name: string)
    ensures ResolveBases(table, [name]) == if Lower(name) in table then [table[Lower(name)]] else []
  {
    assert [name][..0] == [];
  }

  /** A name between two runs of names contributes its entry, if any, between theirs: for
      `[A, X, B]` with `X` unknown the bases are those of `A` followed by those of `B`. */
  lemma ResolveBasesAround(table: map<string, ClassId>, a: seq<string>, name: string, b: seq<string>)
    ensures ResolveBases(table, a + [name] + b)
            == ResolveBases(table, a)
               + (if Lower(name) in table then [table[Lower(name)]] else [])
               + ResolveBases(table, b)
  {
    ResolveBasesAppend(table, a + [name], b);
    ResolveBasesAppend(table, a, [name]);
    ResolveBasesOne(table, name);
  }

  /** The `std::find_if` over the parameters for the one named `base`. */
  method FindBaseArguments(parameters: seq<DataObject>) returns (args: Option<seq<string>>)
    ensures args == BaseArguments(parameters)
  {
    var p := 0;
    while p < |parameters| && !MatchesKeyword(parameters[p].name, "base")
      invariant 0 <= p <= |parameters|
      invariant BaseArguments(parameters) == BaseArguments(parameters[p..])
    {
      assert parameters[p..][1..] == parameters[p + 1..];
      p := p + 1;
    }
    if p < |parameters| {
      args := Some(parameters[p].arguments);
    } else {
      args := None;
    }
  }

  /** The loop over the base names, keeping the ids of the classes the table knows. */
  method CollectBases(table: map<string, ClassId>, names: seq<string>) returns (bases: seq<ClassId>)
    ensures bases == ResolveBases(table, names)
  {
    bases := [];
    var a := 0;
    while a < |names|
      invariant 0 <= a <= |names|
      invariant bases == ResolveBases(table, names[..a])
    {
      var name := Lower(names[a]);
      if name in table {
        bases := bases + [table[name]];
      }
      assert names[..a + 1][..a] == names[..a];
      a := a + 1;
    }
    assert names[..a] == names;
  }

  /** The loop over the child lines, filing each keyvalue under its list. */
  method PartitionChildren(children: seq<DataObject>)
    returns (keyValues: seq<KeyValue>, inputs: seq<KeyValue>, outputs: seq<KeyValue>)
    ensures keyValues == Partition(children, KeyValueList)
    ensures inputs == Partition(children, InputList)
    ensures outputs == Partition(children, OutputList)
  {
    keyValues, inputs, outputs := [], [], [];
    var c := 0;
    while c < |children|
      invariant 0 <= c <= |children|
      invariant keyValues == Partition(children[..c], KeyValueList)
      invariant inputs == Partition(children[..c], InputList)
      invariant outputs == Partition(children[..c], OutputList)
    {
      var child := children[c];
      var kv := NewKeyValue(child);
      PartitionPrefixStep(children, c);
      if |child.attributes| > 0 && MatchesKeyword(child.attributes[0].name, "input") {
        inputs := inputs + [kv];
      } else if |child.attributes| > 0 && MatchesKeyword(child.attributes[0].name, "output") {
        outputs := outputs + [kv];
      } else {
        keyValues := keyValues + [kv];
      }
      c := c + 1;
    }
    assert children[..c] == children;
  }

  /** `ClassDefinition::ClassDefinition(const Data &, const DataObject &)`. */
  method NewClassDefinition(table: map<string, ClassId>, obj: DataObject) returns (cls: ClassDefinition)
    ensures cls == ClassDefinitionOf(table, obj)
  {
    var name, description := "", "";
    if |obj.attributes| > 0 {
      name := obj.attributes[0].name;
      if |obj.attributes| > 1 {
        description := obj.attributes[1].name;
      }
    }
    var classType := ClassTypeOfKeyword(obj.name);
    var baseArgs := FindBaseArguments(obj.parameters);
    var bases: seq<ClassId> := [];
    if baseArgs.Some? {
      bases := CollectBases(table, baseArgs.value);
    }
    var keyValues, inputs, outputs := PartitionChildren(obj.children);
    cls := ClassDefinition(name, description, bases, obj.parameters, keyValues, inputs, outputs, classType);
  }

  /** The list `FindKeyValue` searches for a kind. */
  function ListOf(cls: ClassDefinition, kind: ListKind): seq<KeyValue>
  {
    match kind
    case KeyValueList => cls.keyValues
    case InputList => cls.inputs
    case OutputList => cls.outputs
  }

  /** The `std::find_if` for a keyvalue name: the first position whose name equals `name`
      up to letter case. */
  function FirstMatch(list: seq<KeyValue>, name: string): (r: Option<nat>)
    ensures r.Some? ==> r.value < |list| && EqualsIgnoreCase(list[r.value].name, name)
                        && forall j :: 0 <= j < r.value ==> !EqualsIgnoreCase(list[j].name, name)
    ensures r.None? <==> forall j :: 0 <= j < |list| ==> !EqualsIgnoreCase(list[j].name, name)
    decreases |list|
  {
    if |list| == 0 then None
    else if EqualsIgnoreCase(list[0].name, name) then Some(0)
    else
      match FirstMatch(list[1..], name)
      case None => None
      case Some(i) => Some(i + 1)
  }

  /** Classes live in slots of a heap; a base refers to a slot by index, and an empty slot
      is a class that no longer exists (an expired `weak_ptr`). Every base of a class sits
      in an earlier slot, because the loader only resolves names it has already stored. */
  ghost predicate HeapWf(heap: ClassHeap)
  {
    forall i, j :: 0 <= i < |heap| && heap[i].Some? && 0 <= j < |heap[i].value.baseClasses|
      ==> heap[i].value.baseClasses[j] < i
  }

  /** A live class in the heap. */
  predicate IsLive(heap: ClassHeap, id: ClassId)
  {
    id < |heap| && heap[id].Some?
  }

  /** Reference definition: the class or one of its live bases, transitively, has a
      keyvalue of the kind whose name equals `name` up to letter case. */
  ghost predicate Provides(heap: ClassHeap, id: ClassId, kind: ListKind, name: string)
    requires HeapWf(heap) && IsLive(heap, id)
    decreases id
  {
    var cls := heap[id].value;
    (exists i :: 0 <= i < |ListOf(cls, kind)| && EqualsIgnoreCase(ListOf(cls, kind)[i].name, name))
    || (exists j :: 0 <= j < |cls.baseClasses| && IsLive(heap, cls.baseClasses[j])
                    && Provides(heap, cls.baseClasses[j], kind, name))
  }

  /** `ClassDefinition::FindKeyValue(const Data &, KeyValueType, const std::string &)`:
      the class's own list first, then each live base in declaration order. */
  function Find(heap: ClassHeap, id: ClassId, kind: ListKind, name: string): Option<KeyValue>
    requires HeapWf(heap) && IsLive(heap, id)
    decreases id, 1
  {
    var list := ListOf(heap[id].value, kind);
    match FirstMatch(list, name)
    case Some(i) => Some(list[i])
    case None => FindInBases(heap, id, 0, kind, name)
  }

  /** The loop over the bases of class `id`, from position `j` on. */
  function FindInBases(heap: ClassHeap, id: ClassId, j: nat, kind: ListKind, name: string): Option<KeyValue>
    requires HeapWf(heap) && IsLive(heap, id) && j <= |heap[id].value.baseClasses|
    decreases id, 0, |heap[id].value.baseClasses| - j
  {
    var bases := heap[id].value.baseClasses;
    if j == |bases| then None
    else if !IsLive(heap, bases[j]) then FindInBases(heap, id, j + 1, kind, name)
    else
      match Find(heap, bases[j], kind, name)
      case Some(kv) => Some(kv)
      case None => FindInBases(heap, id, j + 1, kind, name)
  }

  /** The lookup finds something exactly when the class or a live base provides the name,
      and what it finds carries that name. */
  lemma {:induction false} FindSpec(heap: ClassHeap, id: ClassId, kind: ListKind, name: string)
    requires HeapWf(heap) && IsLive(heap, id)
    ensures Find(heap, id, kind, name).Some? <==> Provides(heap, id, kind, name)
    ensures Find(heap, id, kind, name).Some? ==> EqualsIgnoreCase(Find(heap, id, kind, name).value.name, name)
    decreases id, 1
  {
    var cls := heap[id].value;
    var list := ListOf(cls, kind);
    if FirstMatch(list, name).None? {
      FindInBasesSpec(heap, id, 0, kind, name);
    }
  }

  lemma {:induction false} FindInBasesSpec(heap: ClassHeap, id: ClassId, j: nat, kind: ListKind, name: string)
    requires HeapWf(heap) && IsLive(heap, id) && j <= |heap[id].value.baseClasses|
    ensures FindInBases(heap, id, j, kind, name).Some? <==>
              exists k :: j <= k < |heap[id].value.baseClasses| && IsLive(heap, heap[id].value.baseClasses[k])
                          && Provides(heap, heap[id].value.baseClasses[k], kind, name)
    ensures FindInBases(heap, id, j, kind, name).Some? ==>
              EqualsIgnoreCase(FindInBases(heap, id, j, kind, name).value.name, name)
    decreases id, 0, |heap[id].value.baseClasses| - j
  {
    var bases := heap[id].value.baseClasses;
    if j < |bases| {
      FindInBasesSpec(heap, id, j + 1, kind, name);
      if IsLive(heap, bases[j]) {
        FindSpec(heap, bases[j], kind, name);
      }
    }
  }

  /** Own keyvalues take precedence: when the class's own list has a match, the first one
      is the result, whatever the bases hold. */
  lemma FindOwnFirst(heap: ClassHeap, id: ClassId, kind: ListKind, name: string, i: nat)
    requires HeapWf(heap) && IsLive(heap, id)
    requires i < |ListOf(heap[id].value, kind)| && EqualsIgnoreCase(ListOf(heap[id].value, kind)[i].name, name)
    requires forall j :: 0 <= j < i ==> !EqualsIgnoreCase(ListOf(heap[id].value, kind)[j].name, name)
    ensures Find(heap, id, kind, name) == Some(ListOf(heap[id].value, kind)[i])
  {
    var list := ListOf(heap[id].value, kind);
    assert FirstMatch(list, name) == Some(i);
  }

  /** Bases are tried in declaration order: with no own match, the result is that of the
      first live base whose own lookup succeeds. */
  lemma FindFirstBaseWins(heap: ClassHeap, id: ClassId, kind: ListKind, name: string, k: nat)
    requires HeapWf(heap) && IsLive(heap, id)
    requires FirstMatch(ListOf(heap[id].value, kind), name).None?
    requires k < |heap[id].value.baseClasses| && IsLive(heap, heap[id].value.baseClasses[k])
    requires Find(heap, heap[id].value.baseClasses[k], kind, name).Some?
    requires forall m :: 0 <= m < k && IsLive(heap, heap[id].value.baseClasses[m]) ==>
               Find(heap, heap[id].value.baseClasses[m], kind, name).None?
    ensures Find(heap, id, kind, name) == Find(heap, heap[id].value.baseClasses[k], kind, name)
  {
    FindInBasesUpTo(heap, id, 0, kind, name, k);
  }

  lemma {:induction false} FindInBasesUpTo(heap: ClassHeap, id: ClassId, j: nat, kind: ListKind, name: string, k: nat)
    requires HeapWf(heap) && IsLive(heap, id)
    requires j <= k < |heap[id].value.baseClasses| && IsLive(heap, heap[id].value.baseClasses[k])
    requires Find(heap, heap[id].value.baseClasses[k], kind, name).Some?
    requires forall m :: j <= m < k && IsLive(heap, heap[id].value.baseClasses[m]) ==>
               Find(heap, heap[id].value.baseClasses[m], kind, name).None?
    ensures FindInBases(heap, id, j, kind, name) == Find(heap, heap[id].value.baseClasses[k], kind, name)
    decreases k - j
  {
    if j < k {
      FindInBasesUpTo(heap, id, j + 1, kind, name, k);
    }
  }

  /** `FindKeyValue(const Data &, const std::string &)`: the keyvalue list. */
  function FindKeyValue(heap: ClassHeap, id: ClassId, name: string): (r: Option<KeyValue>)
    requires HeapWf(heap) && IsLive(heap, id)
    ensures r.Some? <==> Provides(heap, id, KeyValueList, name)
    ensures r.Some? ==> EqualsIgnoreCase(r.value.name, name)
  {
    FindSpec(heap, id, KeyValueList, name);
    Find(heap, id, KeyValueList, name)
  }

  /** `FindInput`: the input list. */
  function FindInput(heap: ClassHeap, id: ClassId, name: string): (r: Option<KeyValue>)
    requires HeapWf(heap) && IsLive(heap, id)
    ensures r.Some? <==> Provides(heap, id, InputList, name)
    ensures r.Some? ==> EqualsIgnoreCase(r.value.name, name)
  {
    FindSpec(heap, id, InputList, name);
    Find(heap, id, InputList, name)
  }

  /** `FindOutput`: the output list. */
  function FindOutput(heap: ClassHeap, id: ClassId, name: string): (r: Option<KeyValue>)
    requires HeapWf(heap) && IsLive(heap, id)
    ensures r.Some? <==> Provides(heap, id, OutputList, name)
    ensures r.Some? ==> EqualsIgnoreCase(r.value.name, name)
  {
    FindSpec(heap, id, OutputList, name);
    Find(heap, id, OutputList, name)
  }
}
