/** `load_fgd(fileName, fileFactory, fgdCache)` (src/util_fgd.cpp:448-525): reading one FGD
    file, converting its top-level declarations into a `Data` record, loading and merging
    its includes through the caller's cache, and caching the result.

    The file factory is a map from names to the event streams of the files it can open; a
    name outside the map is a file that cannot be opened. Class objects are allocated in the
    session's class heap, and a class table maps lowercased class names to heap slots. */
module Loader {
  import opened Wrappers
  import opened StringUtil
  import opened FgdTypes
  import Maps
  import opened KeyValues
  import opened ClassDefinitions
  import opened BlockReader

  /** The files the factory can open, by the name it is asked for. */
  type Files = map<string, seq<Event>>

  /** Why a load ends without a result: an error out of the block reader, or include
      nesting deeper than the depth bound (the source recurses without a bound, so that a
      cycle of includes never returns). */
  datatype LoadError = Parse(error: ParseError) | IncludeDepthExceeded

  /** The state a load works on: the caller's cache and the class heap. */
  datatype Store = Store(cache: map<string, Data>, heap: ClassHeap)

  /** The returned `std::optional<Data>`: empty for a file that cannot be opened; `Aborted`
      is a load ended by an error, which the source propagates as an exception. */
  datatype Outcome = NotFound | Loaded(data: Data) | Aborted(error: LoadError)

  /** What a load returns together with the store it leaves behind. */
  datatype Load = Load(outcome: Outcome, store: Store)

  /** The seven declaration keywords that make a class. */
  predicate IsClassDeclaration(name: string)
  {
    var l := Lower(name);
    l == "@baseclass" || l == "@pointclass" || l == "@npcclass" || l == "@solidclass"
    || l == "@keyframeclass" || l == "@moveclass" || l == "@filterclass"
  }

  /** The declarations that make classes are exactly those with a class type. */
  lemma IsClassDeclarationSpec(name: string)
    ensures IsClassDeclaration(name) <==> !ClassTypeOfKeyword(name).Unknown?
  {
  }

  /** The map size of the first `@mapsize` declaration; missing values read as 0, and a
      file without the declaration has size (0, 0). */
  function MapSizeOf(children: seq<DataObject>): (int32, int32)
    decreases |children|
  {
    if |children| == 0 then (0, 0)
    else if MatchesKeyword(children[0].name, "@mapsize") then DeclaredSize(children[0])
    else MapSizeOf(children[1..])
  }

  /** The size a `@mapsize` declaration states: its first two arguments through `to_int`,
      0 for each one missing. */
  function DeclaredSize(decl: DataObject): (int32, int32)
  {
    var args := decl.arguments;
    (if |args| > 0 then ToInt(args[0]) else 0, if |args| > 1 then ToInt(args[1]) else 0)
  }

  /** A file without a case-insensitive `@mapsize` declaration has map size (0, 0). */
  lemma {:induction false} MapSizeOfWithout(children: seq<DataObject>)
    requires forall i :: 0 <= i < |children| ==> !MatchesKeyword(children[i].name, "@mapsize")
    ensures MapSizeOf(children) == (0, 0)
    decreases |children|
  {
    if |children| > 0 {
      assert forall i :: 0 <= i < |children| - 1 ==> children[1..][i] == children[i + 1];
      MapSizeOfWithout(children[1..]);
    }
  }

  /** With `children[i]` the first `@mapsize` declaration, the map size is what that
      declaration states. */
  lemma {:induction false} MapSizeOfAt(children: seq<DataObject>, i: nat)
    requires i < |children| && MatchesKeyword(children[i].name, "@mapsize")
    requires forall j :: 0 <= j < i ==> !MatchesKeyword(children[j].name, "@mapsize")
    ensures MapSizeOf(children) == DeclaredSize(children[i])
    decreases i
  {
    if i > 0 {
      assert forall j :: 0 <= j < |children| - 1 ==> children[1..][j] == children[j + 1];
      MapSizeOfAt(children[1..], i - 1);
    }
  }

  /** Merging an included file's data: its map size is taken while this file has none, and
      its classes are inserted without overwriting. */
  function Merge(data: Data, included: Data): Data
  {
    data.(mapSize := if data.mapSize == (0, 0) then included.mapSize else data.mapSize,
          classDefinitions := Maps.InsertAll(data.classDefinitions, included.classDefinitions))
  }

  /** The table key of a class: its lowercased name. */
  function ClassKey(cls: ClassDefinition): string
  {
    Lower(cls.name)
  }

  /** Loading `fileName` with at most `fuel` levels of includes below it. */
  function LoadSpec(files: Files, fuel: nat, fileName: string, s: Store): Load
    decreases fuel, 1
  {
    if fileName !in files then Load(NotFound, s)
    else
      match ReadResult(files[fileName])
      case Failure(e) => Load(Aborted(Parse(e)), s)
      case Success(root) =>
        var c := ConvertFrom(files, fuel, root.children, 0, EmptyData.(mapSize := MapSizeOf(root.children)), s);
        match c.outcome
        case Loaded(data) => Load(Loaded(data), c.store.(cache := Maps.Insert(c.store.cache, Lower(fileName), data)))
        case _ => c
  }

  /** The conversion loop over the root's children, from position `i` on. */
  function ConvertFrom(files: Files, fuel: nat, children: seq<DataObject>, i: nat, data: Data, s: Store): (r: Load)
    requires i <= |children|
    ensures !r.outcome.NotFound?
    decreases fuel, 0, |children| - i
  {
    if i == |children| then Load(Loaded(data), s)
    else
      var c := ConvertChild(files, fuel, children[i], data, s);
      if c.outcome.Aborted? then c
      else ConvertFrom(files, fuel, children, i + 1, c.outcome.data, c.store)
  }

  /** One pass of the conversion loop: an include is recorded, then taken from the cache or
      loaded and merged; a class declaration adds a class; anything else is skipped. */
  function ConvertChild(files: Files, fuel: nat, child: DataObject, data: Data, s: Store): (r: Load)
    ensures !r.outcome.NotFound?
    decreases fuel, 0, 0
  {
    if MatchesKeyword(child.name, "@include") then
      if |child.parameters| == 0 then Load(Loaded(data), s)
      else
        var includeFile := child.parameters[0].name;
        var withName := data.(includes := data.includes + [includeFile]);
        var lower := Lower(includeFile);
        var inc :=
          if lower in s.cache then Load(Loaded(s.cache[lower]), s)
          else if fuel == 0 then Load(Aborted(IncludeDepthExceeded), s)
          else LoadSpec(files, fuel - 1, lower, s);
        match inc.outcome
        case Aborted(_) => inc
        case NotFound => Load(Loaded(withName), inc.store)
        case Loaded(included) => Load(Loaded(Merge(withName, included)), inc.store)
    else if !IsClassDeclaration(child.name) then Load(Loaded(data), s)
    else
      var cls := ClassDefinitionOf(data.classDefinitions, child);
      Load(Loaded(data.(classDefinitions := Maps.Insert(data.classDefinitions, ClassKey(cls), |s.heap|))),
           s.(heap := s.heap + [Some(cls)]))
  }

  // ----- Properties of a load -----

  /** A file the factory cannot open gives no data and changes nothing. */
  lemma MissingFileIsNotFound(files: Files, fuel: nat, fileName: string, s: Store)
    requires fileName !in files
    ensures LoadSpec(files, fuel, fileName, s) == Load(NotFound, s)
  {
  }

  /** An error out of the reader ends the load before anything is stored. */
  lemma ReadErrorAborts(files: Files, fuel: nat, fileName: string, s: Store)
    requires fileName in files && ReadResult(files[fileName]).Failure?
    ensures LoadSpec(files, fuel, fileName, s) == Load(Aborted(Parse(ReadResult(files[fileName]).error)), s)
  {
  }

  /** The include names of the root's children, in file order. */
  function IncludeNames(children: seq<DataObject>): seq<string>
    decreases |children|
  {
    if |children| == 0 then []
    else
      var c := children[0];
      (if MatchesKeyword(c.name, "@include") && |c.parameters| > 0 then [c.parameters[0].name] else [])
      + IncludeNames(children[1..])
  }

  /** Every include is recorded, in file order, whether or not it could be loaded. */
  lemma {:induction false} ConvertIncludes(files: Files, fuel: nat, children: seq<DataObject>, i: nat, data: Data, s: Store)
    requires i <= |children|
    ensures var r := ConvertFrom(files, fuel, children, i, data, s);
            r.outcome.Loaded? ==> r.outcome.data.includes == data.includes + IncludeNames(children[i..])
    decreases |children| - i
  {
    if i < |children| {
      var c := ConvertChild(files, fuel, children[i], data, s);
      ChildIncludes(files, fuel, children[i], data, s);
      if c.outcome.Loaded? {
        ConvertIncludes(files, fuel, children, i + 1, c.outcome.data, c.store);
        IncludeNamesSplit(data.includes, children, i);
      }
    }
  }

  /** The include names from position `i` on: those of child `i`, then those after it. */
  lemma IncludeNamesSplit(prefix: seq<string>, children: seq<DataObject>, i: nat)
    requires i < |children|
    ensures prefix + IncludeNames(children[i..])
            == (prefix + IncludeNames([children[i]])) + IncludeNames(children[i + 1..])
  {
    assert children[i..][1..] == children[i + 1..];
    assert [children[i]][1..] == [];
  }

  /** One child adds its include name, if it is an include with a parameter. */
  lemma ChildIncludes(files: Files, fuel: nat, child: DataObject, data: Data, s: Store)
    ensures var r := ConvertChild(files, fuel, child, data, s);
            r.outcome.Loaded? ==> r.outcome.data.includes == data.includes + IncludeNames([child])
  {
    assert [child][1..] == [];
  }

  /** A load records the includes of its own file, in file order. */
  lemma LoadIncludes(files: Files, fuel: nat, fileName: string, s: Store)
    requires fileName in files && ReadResult(files[fileName]).Success?
    ensures var r := LoadSpec(files, fuel, fileName, s);
            r.outcome.Loaded? ==> r.outcome.data.includes == IncludeNames(ReadResult(files[fileName]).value.children)
  {
    var root := ReadResult(files[fileName]).value;
    ConvertIncludes(files, fuel, root.children, 0, EmptyData.(mapSize := MapSizeOf(root.children)), s);
    assert root.children[0..] == root.children;
  }

  /** Once the map size is set, no later include changes it. */
  lemma {:induction false} ConvertKeepsMapSize(files: Files, fuel: nat, children: seq<DataObject>, i: nat, data: Data, s: Store)
    requires i <= |children| && data.mapSize != (0, 0)
    ensures var r := ConvertFrom(files, fuel, children, i, data, s);
            r.outcome.Loaded? ==> r.outcome.data.mapSize == data.mapSize
    decreases |children| - i
  {
    if i < |children| {
      var c := ConvertChild(files, fuel, children[i], data, s);
      if c.outcome.Loaded? {
        ConvertKeepsMapSize(files, fuel, children, i + 1, c.outcome.data, c.store);
      }
    }
  }

  /** A file's own non-zero `@mapsize` is the map size of its data, whatever it includes. */
  lemma LoadKeepsOwnMapSize(files: Files, fuel: nat, fileName: string, s: Store)
    requires fileName in files && ReadResult(files[fileName]).Success?
    requires MapSizeOf(ReadResult(files[fileName]).value.children) != (0, 0)
    ensures var r := LoadSpec(files, fuel, fileName, s);
            r.outcome.Loaded? ==> r.outcome.data.mapSize == MapSizeOf(ReadResult(files[fileName]).value.children)
  {
    var root := ReadResult(files[fileName]).value;
    ConvertKeepsMapSize(files, fuel, root.children, 0, EmptyData.(mapSize := MapSizeOf(root.children)), s);
  }

  /** A class table entry, once made, is never replaced: neither a later class of the same
      name nor an included class overwrites it. */
  lemma {:induction false} ConvertKeepsTable(files: Files, fuel: nat, children: seq<DataObject>, i: nat, data: Data, s: Store)
    requires i <= |children|
    ensures var r := ConvertFrom(files, fuel, children, i, data, s);
            r.outcome.Loaded? ==>
              forall k :: k in data.classDefinitions ==>
                k in r.outcome.data.classDefinitions && r.outcome.data.classDefinitions[k] == data.classDefinitions[k]
    decreases |children| - i
  {
    if i < |children| {
      var c := ConvertChild(files, fuel, children[i], data, s);
      if c.outcome.Loaded? {
        ConvertKeepsTable(files, fuel, children, i + 1, c.outcome.data, c.store);
      }
    }
  }

  /** An include found in the cache is taken from there and not read again: the result is
      the same for any file factory and any depth bound, the store is left alone, and the
      cached data is merged, its map size adopted while this file has none and its classes
      inserted without overwriting. */
  lemma IncludeFromCache(files: Files, files': Files, fuel: nat, fuel': nat, child: DataObject, data: Data, s: Store)
    requires MatchesKeyword(child.name, "@include") && |child.parameters| > 0
    requires Lower(child.parameters[0].name) in s.cache
    ensures var r := ConvertChild(files, fuel, child, data, s);
            var cached := s.cache[Lower(child.parameters[0].name)];
            && r == ConvertChild(files', fuel', child, data, s)
            && r.store == s && r.outcome.Loaded?
            && r.outcome.data.includes == data.includes + [child.parameters[0].name]
            && r.outcome.data.mapSize == (if data.mapSize == (0, 0) then cached.mapSize else data.mapSize)
            && r.outcome.data.classDefinitions == Maps.InsertAll(data.classDefinitions, cached.classDefinitions)
  {
  }

  /** An include missing from the cache is loaded one level deeper under its lowercased name:
      loaded data is merged as from the cache, a file that cannot be opened only leaves its
      name recorded, and an aborted load aborts this one. */
  lemma IncludeFromFile(files: Files, fuel: nat, child: DataObject, data: Data, s: Store)
    requires MatchesKeyword(child.name, "@include") && |child.parameters| > 0
    requires Lower(child.parameters[0].name) !in s.cache && fuel > 0
    ensures var inc := LoadSpec(files, fuel - 1, Lower(child.parameters[0].name), s);
            var r := ConvertChild(files, fuel, child, data, s);
            var withName := data.(includes := data.includes + [child.parameters[0].name]);
            && (inc.outcome.Loaded? ==>
                  && r.store == inc.store && r.outcome.Loaded?
                  && r.outcome.data.includes == withName.includes
                  && r.outcome.data.mapSize
                     == (if data.mapSize == (0, 0) then inc.outcome.data.mapSize else data.mapSize)
                  && r.outcome.data.classDefinitions
                     == Maps.InsertAll(data.classDefinitions, inc.outcome.data.classDefinitions))
            && (inc.outcome.NotFound? ==> r == Load(Loaded(withName), inc.store))
            && (inc.outcome.Aborted? ==> r == inc)
  {
  }

  /** An include loaded from a file is cached under the very key it was looked up with, so
      that the next include of the same name, in any letter case, is a cache hit. */
  lemma IncludeIsCached(files: Files, fuel: nat, child: DataObject, data: Data, s: Store)
    requires StoreWf(s) && TableLive(s.heap, data.classDefinitions)
    requires MatchesKeyword(child.name, "@include") && |child.parameters| > 0
    requires Lower(child.parameters[0].name) !in s.cache && fuel > 0
    ensures var lower := Lower(child.parameters[0].name);
            var inc := LoadSpec(files, fuel - 1, lower, s);
            inc.outcome.Loaded? ==> lower in ConvertChild(files, fuel, child, data, s).store.cache
  {
    var lower := Lower(child.parameters[0].name);
    LoadPreserves(files, fuel - 1, lower, s);
    LowerIdempotent(child.parameters[0].name);
  }

  /** A file without a `@mapsize` of its own whose first declaration includes a file with a
      map size ends up with that map size, whatever it includes later. */
  lemma LoadAdoptsIncludedMapSize(files: Files, fuel: nat, fileName: string, s: Store)
    requires fileName in files && ReadResult(files[fileName]).Success?
    requires var children := ReadResult(files[fileName]).value.children;
             && MapSizeOf(children) == (0, 0) && |children| > 0
             && MatchesKeyword(children[0].name, "@include") && |children[0].parameters| > 0
             && Lower(children[0].parameters[0].name) !in s.cache && fuel > 0
    ensures var children := ReadResult(files[fileName]).value.children;
            var inc := LoadSpec(files, fuel - 1, Lower(children[0].parameters[0].name), s);
            var r := LoadSpec(files, fuel, fileName, s);
            inc.outcome.Loaded? && inc.outcome.data.mapSize != (0, 0) && r.outcome.Loaded? ==>
              r.outcome.data.mapSize == inc.outcome.data.mapSize
  {
    var children := ReadResult(files[fileName]).value.children;
    var data0 := EmptyData.(mapSize := MapSizeOf(children));
    IncludeFromFile(files, fuel, children[0], data0, s);
    var c := ConvertChild(files, fuel, children[0], data0, s);
    if c.outcome.Loaded? && c.outcome.data.mapSize != (0, 0) {
      ConvertKeepsMapSize(files, fuel, children, 1, c.outcome.data, c.store);
    }
  }

  // ----- The store stays well formed and only grows -----

  /** Every entry of a class table refers to a live class. */
  ghost predicate TableLive(heap: ClassHeap, table: map<string, ClassId>)
  {
    forall k :: k in table ==> IsLive(heap, table[k])
  }

  /** The class heap only has bases in earlier slots, and the cached tables refer to live
      classes, so every cached class can be searched with `Find`. */
  ghost predicate StoreWf(s: Store)
  {
    HeapWf(s.heap) && forall k :: k in s.cache ==> TableLive(s.heap, s.cache[k].classDefinitions)
  }

  /** `t` is `s` with more: no cache entry removed or replaced, the heap only appended to. */
  ghost predicate Extends(s: Store, t: Store)
  {
    (forall k :: k in s.cache ==> k in t.cache && t.cache[k] == s.cache[k])
    && |s.heap| <= |t.heap| && t.heap[..|s.heap|] == s.heap
  }

  lemma TableLiveExtends(heap: ClassHeap, heap': ClassHeap, table: map<string, ClassId>)
    requires TableLive(heap, table) && |heap| <= |heap'| && heap'[..|heap|] == heap
    ensures TableLive(heap', table)
  {
    forall k | k in table
      ensures IsLive(heap', table[k])
    {
      assert heap'[table[k]] == heap'[..|heap|][table[k]];
    }
  }

  /** Every store extends itself. */
  lemma ExtendsItself(s: Store)
    ensures Extends(s, s)
  {
    assert s.heap[..|s.heap|] == s.heap;
  }

  /** Merging two tables of live classes gives a table of live classes. */
  lemma MergeLive(heap: ClassHeap, table: map<string, ClassId>, incoming: map<string, ClassId>)
    requires TableLive(heap, table) && TableLive(heap, incoming)
    ensures TableLive(heap, Maps.InsertAll(table, incoming))
  {
  }

  lemma ExtendsTransitive(s: Store, t: Store, u: Store)
    requires Extends(s, t) && Extends(t, u)
    ensures Extends(s, u)
  {
    assert u.heap[..|s.heap|] == u.heap[..|t.heap|][..|s.heap|];
  }

  /** A class built against a table of live classes has its bases in the heap. */
  lemma ClassBasesInHeap(heap: ClassHeap, table: map<string, ClassId>, obj: DataObject)
    requires TableLive(heap, table)
    ensures forall j :: 0 <= j < |ClassDefinitionOf(table, obj).baseClasses| ==>
              ClassDefinitionOf(table, obj).baseClasses[j] < |heap|
  {
    match BaseArguments(obj.parameters)
    case None =>
    case Some(args) =>
      ResolveBasesSpec(table, args);
      var bases := ResolveBases(table, args);
      forall j | 0 <= j < |bases|
        ensures bases[j] < |heap|
      {
        assert bases[j] in bases;
      }
  }

  /** Allocating a class keeps the store well formed. The table entry goes to the new
      slot only when the lowercased name is new; a name already present keeps its class,
      as `unordered_map::insert` does. */
  lemma AddClassWf(s: Store, table: map<string, ClassId>, obj: DataObject)
    requires StoreWf(s) && TableLive(s.heap, table)
    ensures var cls := ClassDefinitionOf(table, obj);
            var t := s.(heap := s.heap + [Some(cls)]);
            StoreWf(t) && Extends(s, t) && t.heap[|s.heap|] == Some(cls)
            && TableLive(t.heap, Maps.Insert(table, ClassKey(cls), |s.heap|))
            && (ClassKey(cls) !in table ==> Maps.Insert(table, ClassKey(cls), |s.heap|)[ClassKey(cls)] == |s.heap|)
            && (ClassKey(cls) in table ==> Maps.Insert(table, ClassKey(cls), |s.heap|) == table)
  {
    var cls := ClassDefinitionOf(table, obj);
    var heap := s.heap + [Some(cls)];
    ClassBasesInHeap(s.heap, table, obj);
    assert heap[..|s.heap|] == s.heap;
    forall i, j | 0 <= i < |heap| && heap[i].Some? && 0 <= j < |heap[i].value.baseClasses|
      ensures heap[i].value.baseClasses[j] < i
    {
      if i < |s.heap| {
        assert heap[i] == s.heap[i];
      }
    }
    forall k | k in s.cache
      ensures TableLive(heap, s.cache[k].classDefinitions)
    {
      TableLiveExtends(s.heap, heap, s.cache[k].classDefinitions);
    }
    TableLiveExtends(s.heap, heap, table);
  }

  /** A load keeps the store well formed and only adds to it; what it loads refers to live
      classes, and it leaves its result in the cache under the lowercased file name. */
  lemma {:induction false} LoadPreserves(files: Files, fuel: nat, fileName: string, s: Store)
    requires StoreWf(s)
    ensures var r := LoadSpec(files, fuel, fileName, s);
            StoreWf(r.store) && Extends(s, r.store)
            && (r.outcome.Loaded? ==> TableLive(r.store.heap, r.outcome.data.classDefinitions)
                                      && Lower(fileName) in r.store.cache)
    decreases fuel, 1
  {
    if fileName in files && ReadResult(files[fileName]).Success? {
      var root := ReadResult(files[fileName]).value;
      var data0 := EmptyData.(mapSize := MapSizeOf(root.children));
      ConvertPreserves(files, fuel, root.children, 0, data0, s);
      var c := ConvertFrom(files, fuel, root.children, 0, data0, s);
      if c.outcome.Loaded? {
        var t := c.store.(cache := Maps.Insert(c.store.cache, Lower(fileName), c.outcome.data));
        assert t.heap[..|c.store.heap|] == c.store.heap;
        assert Extends(c.store, t);
        ExtendsTransitive(s, c.store, t);
      }
    }
  }

  lemma {:induction false} ConvertPreserves(files: Files, fuel: nat, children: seq<DataObject>, i: nat, data: Data, s: Store)
    requires i <= |children| && StoreWf(s) && TableLive(s.heap, data.classDefinitions)
    ensures var r := ConvertFrom(files, fuel, children, i, data, s);
            StoreWf(r.store) && Extends(s, r.store)
            && (r.outcome.Loaded? ==> TableLive(r.store.heap, r.outcome.data.classDefinitions))
    decreases fuel, 0, |children| - i
  {
    if i < |children| {
      ChildPreserves(files, fuel, children[i], data, s);
      var c := ConvertChild(files, fuel, children[i], data, s);
      if c.outcome.Loaded? {
        ConvertPreserves(files, fuel, children, i + 1, c.outcome.data, c.store);
        ExtendsTransitive(s, c.store, ConvertFrom(files, fuel, children, i + 1, c.outcome.data, c.store).store);
      }
    } else {
      assert s.heap[..|s.heap|] == s.heap;
    }
  }

  lemma {:induction false} ChildPreserves(files: Files, fuel: nat, child: DataObject, data: Data, s: Store)
    requires StoreWf(s) && TableLive(s.heap, data.classDefinitions)
    ensures var r := ConvertChild(files, fuel, child, data, s);
            StoreWf(r.store) && Extends(s, r.store)
            && (r.outcome.Loaded? ==> TableLive(r.store.heap, r.outcome.data.classDefinitions))
    decreases fuel, 0, 0
  {
    ExtendsItself(s);
    if MatchesKeyword(child.name, "@include") {
      if |child.parameters| > 0 {
        var lower := Lower(child.parameters[0].name);
        if lower in s.cache {
          MergeLive(s.heap, data.classDefinitions, s.cache[lower].classDefinitions);
        } else if fuel > 0 {
          LoadPreserves(files, fuel - 1, lower, s);
          var inc := LoadSpec(files, fuel - 1, lower, s);
          TableLiveExtends(s.heap, inc.store.heap, data.classDefinitions);
          if inc.outcome.Loaded? {
            MergeLive(inc.store.heap, data.classDefinitions, inc.outcome.data.classDefinitions);
          }
        }
      }
    } else if IsClassDeclaration(child.name) {
      AddClassWf(s, data.classDefinitions, child);
    }
  }

  // ----- Which children make classes -----

  /** The number of class declarations among the children. */
  function ClassCount(children: seq<DataObject>): nat
    decreases |children|
  {
    if |children| == 0 then 0
    else (if IsClassDeclaration(children[0].name) then 1 else 0) + ClassCount(children[1..])
  }

  /** Without includes, the conversion touches no cache entry, allocates one class per class
      declaration and nothing for any other child, and every declared class is in the table
      under its lowercased name. */
  lemma {:induction false} ConvertWithoutIncludes(files: Files, fuel: nat, children: seq<DataObject>, i: nat, data: Data, s: Store)
    requires i <= |children|
    requires forall j :: i <= j < |children| ==> !MatchesKeyword(children[j].name, "@include")
    ensures var r := ConvertFrom(files, fuel, children, i, data, s);
            r.outcome.Loaded? && r.store.cache == s.cache
            && |r.store.heap| == |s.heap| + ClassCount(children[i..])
            && forall j :: i <= j < |children| && IsClassDeclaration(children[j].name) ==>
                 Lower(AttributeName(children[j].attributes, 0)) in r.outcome.data.classDefinitions
    decreases |children| - i
  {
    if i < |children| {
      assert children[i..][1..] == children[i + 1..];
      var c := ConvertChild(files, fuel, children[i], data, s);
      ConvertWithoutIncludes(files, fuel, children, i + 1, c.outcome.data, c.store);
      ConvertKeepsTable(files, fuel, children, i + 1, c.outcome.data, c.store);
    }
  }

  /** A file without includes, whose lowercased name the cache does not hold yet, loads and
      leaves the cache with exactly one new entry: its own data, under its lowercased name. */
  lemma LoadCachesOwnResult(files: Files, fuel: nat, fileName: string, s: Store)
    requires fileName in files && ReadResult(files[fileName]).Success? && Lower(fileName) !in s.cache
    requires var children := ReadResult(files[fileName]).value.children;
             forall j :: 0 <= j < |children| ==> !MatchesKeyword(children[j].name, "@include")
    ensures var r := LoadSpec(files, fuel, fileName, s);
            r.outcome.Loaded? && r.store.cache == s.cache[Lower(fileName) := r.outcome.data]
  {
    var children := ReadResult(files[fileName]).value.children;
    var data0 := EmptyData.(mapSize := MapSizeOf(children));
    ConvertWithoutIncludes(files, fuel, children, 0, data0, s);
    var c := ConvertFrom(files, fuel, children, 0, data0, s);
    var cache' := Maps.Insert(c.store.cache, Lower(fileName), c.outcome.data);
    assert cache' == s.cache[Lower(fileName) := c.outcome.data];
  }

  /** A file whose first declaration includes the file itself never finishes loading: at
      every depth bound the load ends in `IncludeDepthExceeded`, the model of the source's
      unbounded recursion. */
  lemma {:induction false} SelfIncludeNeverLoads(files: Files, fuel: nat, fileName: string, s: Store)
    requires fileName in files && ReadResult(files[fileName]).Success? && fileName !in s.cache
    requires var root := ReadResult(files[fileName]).value;
             |root.children| > 0 && MatchesKeyword(root.children[0].name, "@include")
             && |root.children[0].parameters| > 0 && Lower(root.children[0].parameters[0].name) == fileName
    ensures LoadSpec(files, fuel, fileName, s).outcome == Aborted(IncludeDepthExceeded)
    decreases fuel
  {
    var root := ReadResult(files[fileName]).value;
    var data0 := EmptyData.(mapSize := MapSizeOf(root.children));
    if fuel > 0 {
      SelfIncludeNeverLoads(files, fuel - 1, fileName, s);
    }
    assert ConvertChild(files, fuel, root.children[0], data0, s).outcome == Aborted(IncludeDepthExceeded);
    assert ConvertFrom(files, fuel, root.children, 0, data0, s).outcome == Aborted(IncludeDepthExceeded);
  }

  // ----- The loader as the source runs it -----

  /** The `std::find_if` for the `@mapsize` declaration and the reading of its arguments:
      (0, 0) without a declaration, otherwise the first declaration's two arguments through
      `to_int`, 0 for each one missing. */
  method FindMapSize(children: seq<DataObject>) returns (mapSize: (int32, int32))
    ensures mapSize == MapSizeOf(children)
    ensures (forall i :: 0 <= i < |children| ==> !MatchesKeyword(children[i].name, "@mapsize")) ==>
              mapSize == (0, 0)
    ensures forall i :: (0 <= i < |children| && MatchesKeyword(children[i].name, "@mapsize")
                         && forall j :: 0 <= j < i ==> !MatchesKeyword(children[j].name, "@mapsize")) ==>
              mapSize == DeclaredSize(children[i])
  {
    var i := 0;
    while i < |children| && !MatchesKeyword(children[i].name, "@mapsize")
      invariant 0 <= i <= |children|
      invariant MapSizeOf(children) == MapSizeOf(children[i..])
      invariant forall j :: 0 <= j < i ==> !MatchesKeyword(children[j].name, "@mapsize")
    {
      assert children[i..][1..] == children[i + 1..];
      i := i + 1;
    }
    mapSize := (0, 0);
    if i < |children| {
      var args := children[i].arguments;
      var min, max: int32 := 0, 0;
      if |args| > 0 {
        min := ToInt(args[0]);
        if |args| > 1 {
          max := ToInt(args[1]);
        }
      }
      mapSize := (min, max);
    }
  }

  /** The loop inserting every class of an included file into this file's table. */
  method InsertClasses(table: map<string, ClassId>, incoming: map<string, ClassId>) returns (r: map<string, ClassId>)
    ensures r == Maps.InsertAll(table, incoming)
  {
    r := table;
    var remaining := incoming.Keys;
    InsertClassesStart(table, incoming);
    while remaining != {}
      invariant remaining <= incoming.Keys
      invariant r == Maps.InsertAll(table, incoming - remaining)
      decreases |remaining|
    {
      var k :| k in remaining;
      InsertClassesStep(table, incoming, remaining, k, r);
      r := Maps.Insert(r, k, incoming[k]);
      remaining := remaining - {k};
    }
    InsertClassesEnd(table, incoming, remaining, r);
  }

  /** Before the loop nothing of `incoming` has been inserted. */
  lemma InsertClassesStart(table: map<string, ClassId>, incoming: map<string, ClassId>)
    ensures table == Maps.InsertAll(table, incoming - incoming.Keys)
  {
    assert incoming - incoming.Keys == map[];
  }

  /** Once no key remains, all of `incoming` has been inserted. */
  lemma InsertClassesEnd(table: map<string, ClassId>, incoming: map<string, ClassId>, remaining: set<string>, r: map<string, ClassId>)
    requires remaining == {} && r == Maps.InsertAll(table, incoming - remaining)
    ensures r == Maps.InsertAll(table, incoming)
  {
    assert incoming - remaining == incoming;
  }

  /** Inserting one more remaining key extends the inserted part by that key. */
  lemma InsertClassesStep(table: map<string, ClassId>, incoming: map<string, ClassId>, remaining: set<string>, k: string, r: map<string, ClassId>)
    requires k in remaining && remaining <= incoming.Keys
    requires r == Maps.InsertAll(table, incoming - remaining)
    ensures Maps.Insert(r, k, incoming[k]) == Maps.InsertAll(table, incoming - (remaining - {k}))
  {
    var done := incoming - remaining;
    InsertAllStep(table, done, k, incoming[k]);
    assert incoming - (remaining - {k}) == done[k := incoming[k]];
  }

  /** Inserting a key absent from `done` after the others is inserting it with them. */
  lemma InsertAllStep(table: map<string, ClassId>, done: map<string, ClassId>, k: string, v: ClassId)
    requires k !in done
    ensures Maps.Insert(Maps.InsertAll(table, done), k, v) == Maps.InsertAll(table, done[k := v])
  {
    var lhs := Maps.Insert(Maps.InsertAll(table, done), k, v);
    var rhs := Maps.InsertAll(table, done[k := v]);
    assert lhs.Keys == rhs.Keys;
    forall j | j in lhs.Keys
      ensures lhs[j] == rhs[j]
    {
    }
  }

  /** The caller's cache, together with the heap in which the loads allocate classes. */
  class Session {
    var cache: map<string, Data>
    var heap: ClassHeap

    constructor (cache: map<string, Data>)
      ensures this.cache == cache && heap == []
    {
      this.cache := cache;
      heap := [];
    }

    function Snapshot(): Store
      reads this
    {
      Store(cache, heap)
    }

    /** `load_fgd(fileName, fileFactory, fgdCache)`, with at most `fuel` levels of includes. */
    method LoadFgd(files: Files, fuel: nat, fileName: string) returns (outcome: Outcome)
      modifies this
      ensures Load(outcome, Snapshot()) == LoadSpec(files, fuel, fileName, old(Snapshot()))
      decreases fuel, 1
    {
      if fileName !in files {
        return NotFound;
      }
      var read := ReadBlock(files[fileName]);
      if read.Failure? {
        return Aborted(Parse(read.error));
      }
      var children := read.value.children;
      var mapSize := FindMapSize(children);
      var data := EmptyData.(mapSize := mapSize);
      ghost var total := ConvertFrom(files, fuel, children, 0, data, Snapshot());
      var i := 0;
      while i < |children|
        invariant 0 <= i <= |children|
        invariant total == ConvertFrom(files, fuel, children, i, data, Snapshot())
      {
        var step := ConvertOne(files, fuel, children[i], data);
        if step.Aborted? {
          return step;
        }
        data := step.data;
        i := i + 1;
      }
      cache := Maps.Insert(cache, Lower(fileName), data);
      return Loaded(data);
    }

    /** One pass of the conversion loop over the root's children. */
    method ConvertOne(files: Files, fuel: nat, child: DataObject, data: Data) returns (outcome: Outcome)
      modifies this
      ensures Load(outcome, Snapshot()) == ConvertChild(files, fuel, child, data, old(Snapshot()))
      decreases fuel, 0
    {
      if MatchesKeyword(child.name, "@include") {
        if |child.parameters| > 0 {
          var includeFile := child.parameters[0].name;
          var withName := data.(includes := data.includes + [includeFile]);
          var lower := Lower(includeFile);
          var included: Outcome;
          if lower in cache {
            included := Loaded(cache[lower]);
          } else if fuel == 0 {
            return Aborted(IncludeDepthExceeded);
          } else {
            included := LoadFgd(files, fuel - 1, lower);
          }
          match included {
            case Aborted(e) =>
              return Aborted(e);
            case NotFound =>
              return Loaded(withName);
            case Loaded(inc) =>
              var merged := withName;
              if merged.mapSize == (0, 0) {
                merged := merged.(mapSize := inc.mapSize);
              }
              var table := InsertClasses(merged.classDefinitions, inc.classDefinitions);
              return Loaded(merged.(classDefinitions := table));
          }
        }
        return Loaded(data);
      } else if IsClassDeclaration(child.name) {
        var cls := NewClassDefinition(data.classDefinitions, child);
        var id := |heap|;
        heap := heap + [Some(cls)];
        return Loaded(data.(classDefinitions := Maps.Insert(data.classDefinitions, Lower(cls.name), id)));
      }
      return Loaded(data);
    }
  }
}
