# util_fgd in Dafny

A model of the FGD (Forge Game Data) layer of `util_fgd`. FGD is the entity-definition
format of the Valve Hammer editor. The model covers four parts of the layer:

- **The block reader** (`read_block`). It turns the token stream of a file into a tree of
  `DataObject` nodes: a name, arguments, parameters, attributes and children. It works
  with a stack of open containers and a parser state.
- **The keyvalue decoder** (`KeyValue::KeyValue`). It turns one line of a class body into
  a typed `KeyValue`: descriptions, a default, a value type, and a table of
  choices or flags.
- **The class builder and lookup** (`ClassDefinition::ClassDefinition`, `FindKeyValue`,
  `FindInput`, `FindOutput`). It builds a class from a declaration, resolves its base
  classes, and looks names up through the inheritance chain.
- **The loader** (`load_fgd`). It converts the top-level declarations of a file into a
  `Data` record, loads and merges included files through the caller's cache, and caches
  the result.

Files:

- `wrappers.dfy`: `Option`, `Result`, and `Maps`. `Maps` models `unordered_map::insert`,
  which never overwrites an existing key.
- `string_util.dfy`: ASCII stand-ins for the string and number helpers the layer calls:
  case-insensitive comparison, lowercasing, `to_int` and `to_boolean`.
- `fgd_types.dfy`: the header's data model.
- `key_value.dfy`: the keyvalue decoder.
- `class_definition.dfy`: the class builder and the inherited lookup.
- `block_reader.dfy`: `read_block` over lexical events.
- `loader.dfy`: `load_fgd`, as specification functions and as the imperative
  `Session.LoadFgd` method.

Representation choices:

- **Shared nodes.** Nodes shared through `shared_ptr` live in an arena of `Node` records;
  children and stack entries are arena indices. `ToTree` reads the finished arena back
  as a `DataObject` tree.
- **Classes.** Class objects live in a heap of slots. A `weak_ptr` base is a slot index,
  and an empty slot is an expired pointer. Every base sits in an earlier slot (`HeapWf`),
  which is why the recursive lookup terminates.
- **Fixed keywords.** Keywords are compared case-insensitively: the lowered input must
  equal the keyword written in lower case. `StringUtil.EqualsIgnoreCaseKeyword` proves
  this is the same comparison.
- **Loops.** Each loop of the two constructors, `read_block` and `load_fgd` is a method
  proved equal to the function that specifies it:
  - `NewKeyValue`, with `ReadDescriptions`, `CollectChoices` and `ReadChoice`;
  - `NewClassDefinition`, with `FindBaseArguments`, `CollectBases` and
    `PartitionChildren`;
  - `ReadBlock`, with `ReadEvent` and `AttachValue`;
  - `Session.LoadFgd`, with `ConvertOne`, `FindMapSize` and `InsertClasses`.
  The properties are proved as lemmas about those functions. The lookup changes no
  state, so its `find_if` and its loop over the bases are the recursive functions
  `FirstMatch` and `FindInBases`.

Behaviour of the code worth noting:

- **Redefinition.** A class declared twice in one file keeps its FIRST definition. Both
  the in-file insertion and the include merge use `unordered_map::insert`, which never
  replaces an entry.
- **Parse errors.** `load_fgd` ignores the result code of `read_block`, so a parse error
  does not end a load. It only ends the reading of that file, and whatever was read so
  far is converted. Only the two thrown exceptions, and the container misuse they sit
  beside, end a load (`Aborted`).
- **Include names.** An include is loaded under its lowercased name, and that name is
  also its cache key.
- **Cache use.** The top-level call never looks itself up in the cache; it always reads
  the file. Its cache insertion does not replace an entry that is already there.

## Model

| member | source | states |
|---|---|---|
| Maps.Insert | src/util_fgd.cpp:519 | `unordered_map::insert`: the key is added with the new value when absent; an existing entry keeps its value; every other entry is unchanged |
| Maps.InsertAll | src/util_fgd.cpp:500-501 | inserting every pair of another table: the keys are the union; entries already present keep their values; new keys take the other table's values |
| StringUtil.EqualsIgnoreCaseKeyword | src/util_fgd.cpp:25 | comparing a string with a lower-case keyword case-insensitively is comparing the lowered string with the keyword |
| FgdTypes.ClassTypeOfCode | include/util_fgd.hpp:16-27 | each value below 7 names a class type other than `Unknown` |
| FgdTypes.KeyValueTypeOfCode | include/util_fgd.hpp:35-65 | each value below 26 names a keyvalue type other than `Unknown` |
| FgdTypes.ClassTypeCodes | include/util_fgd.hpp:16-27 | the named class types are numbered 0 to 6 with no gaps; each value names exactly one; `Unknown` is 255 and distinct from all |
| FgdTypes.KeyValueTypeCodes | include/util_fgd.hpp:35-65 | the 26 named keyvalue types are numbered 0 to 25 with no gaps; each value names exactly one; `Unknown` is 255 and distinct from all |
| KeyValues.TypeOfLoweredSound | src/util_fgd.cpp:39-91 | the cascade on a lowered string yields a named type only when the string is that type's keyword |
| KeyValues.TypeOfLoweredComplete | src/util_fgd.cpp:39-91 | each type's keyword takes the cascade to that type |
| KeyValues.TypeOfLoweredNone | src/util_fgd.cpp:39-91 | a string that is none of the 26 keywords leaves the type `Unknown` |
| KeyValues.TypeOfKeywordSound | src/util_fgd.cpp:37-92 | a recognised type is one whose keyword the argument spells, ignoring case |
| KeyValues.TypeOfKeywordComplete | src/util_fgd.cpp:37-92 | an argument spelling a type's keyword, in any letter case, yields that type |
| KeyValues.TypeOfKeywordSpec | src/util_fgd.cpp:37-92 | type `t` if and only if the argument spells `t`'s keyword; `Unknown` if and only if it spells none of the 26 |
| KeyValues.DescriptionAttributes | src/util_fgd.cpp:23-26 | the description attributes are all the attributes, or all but the first |
| KeyValues.ReadDescriptions | src/util_fgd.cpp:23-36 | the index-counting code reads the short description, default and long description from positions 0, 1 and 2 of the description attributes, empty where absent |
| KeyValues.ChoicesOfKeys | src/util_fgd.cpp:95-113 | the choices table has an entry for a name if and only if some child has that name |
| KeyValues.ChoicesOfFirstWins | src/util_fgd.cpp:110-112 | the table entry for a name is built from the first child with that name; later duplicates are ignored |
| KeyValues.ChoicesOfNewLast | src/util_fgd.cpp:110-112 | a child whose name no earlier child carries makes that name's entry |
| KeyValues.ChoicesOfKeepsEarlier | src/util_fgd.cpp:110-112 | a later child never changes an entry an earlier child made |
| KeyValues.ChoicesOfPrefixStep | src/util_fgd.cpp:95-113 | one more child inserts its name and choice without overwriting |
| KeyValues.ReadChoice | src/util_fgd.cpp:97-112 | one pass of the choices loop computes that child's value, description and default flag as `ChoiceOf` states |
| KeyValues.KeyValueChoices | src/util_fgd.cpp:93-114 | choices only for `choices`/`flags`; then one entry per distinct child name, with the first such child's value and description; `defaultOn` if and only if the type is `flags`, there are at least 3 attributes and the third reads true |
| KeyValues.KeyValueDescriptions | src/util_fgd.cpp:20-36 | the name is the node's name; a leading `input`/`output` attribute is skipped; the next attributes are the short description, default and long description in that order; missing ones are empty |
| KeyValues.KeyValueDefaults | include/util_fgd.hpp:80-87 | a node with no attributes and no arguments yields empty strings, type `Unknown` and no choices, the header's defaults |
| KeyValues.KeyValueWithoutArguments | src/util_fgd.cpp:37-93 | without arguments the type is `Unknown` and there are no choices, whatever the attributes |
| KeyValues.CollectChoices | src/util_fgd.cpp:93-114 | the choices loop builds exactly the table `ChoicesOf` specifies |
| KeyValues.NewKeyValue | src/util_fgd.cpp:20-115 | the constructor builds exactly `KeyValueOf(obj)`, the value the properties above describe |
| ClassDefinitions.ClassTypeOfKeywordSpec | src/util_fgd.cpp:131-144 | class type `t` if and only if the declaration spells `t`'s keyword; `Unknown` (the header default, include/util_fgd.hpp:130) if and only if it spells none of the seven |
| ClassDefinitions.AllKeyValues | src/util_fgd.cpp:166-183 | one keyvalue per child, in order, each decoded from that child |
| ClassDefinitions.PartitionIsExact | src/util_fgd.cpp:166-183 | the keyvalue, input and output lists together hold exactly the keyvalues of all children, as multisets |
| ClassDefinitions.PartitionLengths | src/util_fgd.cpp:166-183 | the lengths of the three lists add up to the number of children |
| ClassDefinitions.PartitionAppend | src/util_fgd.cpp:166-183 | filing two runs of children one after the other fills each list with the first run's entries followed by the second's |
| ClassDefinitions.PartitionKeepsOrder | src/util_fgd.cpp:166-183 | a child's list is the list of the children before it, then that child's keyvalue, then the list of the children after it; so the child sits right after all earlier children of its kind |
| ClassDefinitions.OutputLineIsFiledAsOutput | src/util_fgd.cpp:170-180 | a line whose first attribute is the `output` marker goes to the outputs; its short description is the attribute after the marker |
| ClassDefinitions.BaseArgumentsIsFirst | src/util_fgd.cpp:146-151 | the base list comes from the first parameter named `base`, ignoring case; there is none if no parameter has that name |
| ClassDefinitions.ResolveBasesSpec | src/util_fgd.cpp:152-161 | every resolved base is the table entry of some lowercased argument; at most one base per argument; all arguments known gives each one resolved in order; none known gives no bases |
| ClassDefinitions.ResolveBasesAppend | src/util_fgd.cpp:152-161 | resolving two runs of arguments is resolving the first, then the second: each argument contributes independently, in order |
| ClassDefinitions.ResolveBasesOne | src/util_fgd.cpp:155-160 | one argument gives its lowercased table entry if the table has it, and nothing otherwise |
| ClassDefinitions.ResolveBasesAround | src/util_fgd.cpp:152-161 | an argument between two runs puts its entry, or nothing if unknown, between theirs; with the two lemmas above this fixes the result for every mix of known and unknown names |
| ClassDefinitions.FindBaseArguments | src/util_fgd.cpp:146-151 | the `find_if` loop finds the base parameter `BaseArguments` specifies |
| ClassDefinitions.CollectBases | src/util_fgd.cpp:152-161 | the base loop resolves the list `ResolveBases` specifies |
| ClassDefinitions.PartitionChildren | src/util_fgd.cpp:162-183 | the children loop fills the three lists `Partition` specifies |
| ClassDefinitions.NewClassDefinition | src/util_fgd.cpp:123-184 | the constructor builds exactly `ClassDefinitionOf(table, obj)`: name and description from the first two attributes, bases as above, properties equal to the parameters, lists as above, type from the keyword |
| ClassDefinitions.FirstMatch | src/util_fgd.cpp:195-198 | the position found is the first whose name equals the wanted one, ignoring case; nothing is found if and only if no name matches |
| ClassDefinitions.FindSpec | src/util_fgd.cpp:193-210 | the lookup finds something if and only if the class or a live base, transitively, has a keyvalue of that kind with that name; what it finds has that name |
| ClassDefinitions.FindInBasesSpec | src/util_fgd.cpp:201-208 | the loop over the bases from position `j` finds something if and only if some live base at or after `j` provides the name; expired bases are skipped |
| ClassDefinitions.FindOwnFirst | src/util_fgd.cpp:195-200 | when the class's own list has a match, the first such match is the result, whatever the bases hold |
| ClassDefinitions.FindFirstBaseWins | src/util_fgd.cpp:201-209 | with no own match, the result is that of the first live base, in declaration order, whose own lookup succeeds |
| ClassDefinitions.FindInBasesUpTo | src/util_fgd.cpp:201-209 | skipping expired bases and bases without a match, the loop returns the first base's result |
| ClassDefinitions.FindKeyValue | src/util_fgd.cpp:211 | searches the keyvalue list of the class and its bases; found if and only if provided; the result has the wanted name |
| ClassDefinitions.FindInput | src/util_fgd.cpp:212 | the same for the input list (include/util_fgd.hpp:110-111) |
| ClassDefinitions.FindOutput | src/util_fgd.cpp:213 | the same for the output list (include/util_fgd.hpp:112-113) |
| BlockReader.Top | src/util_fgd.cpp:379 | the top of a non-empty stack is a node of the arena |
| BlockReader.StepPreservesWf | src/util_fgd.cpp:350-446 | every event keeps the arena a forest ordered by index, with all stack entries inside it |
| BlockReader.AttachPreservesWf | src/util_fgd.cpp:406-442 | attaching a value in any state keeps the arena well formed |
| BlockReader.Run | src/util_fgd.cpp:350-446 | reading a sequence of events keeps the reader well formed |
| BlockReader.ToTree | include/util_fgd.hpp:140-147 | the tree at a node carries that node's name, arguments, parameters and attributes, and one subtree per child |
| BlockReader.RunAppend | src/util_fgd.cpp:353-444 | reading two event sequences one after the other is reading their concatenation |
| BlockReader.RunStopsAtFailure | src/util_fgd.cpp:371-420 | after the first error, further events change nothing |
| BlockReader.ToTreeFrame | src/util_fgd.cpp:379-439 | changes to nodes before a tree's root, or new nodes at the end, leave that tree unchanged |
| BlockReader.ToTreeAvoids | src/util_fgd.cpp:379-439 | a change to one node leaves every tree that does not contain it unchanged |
| BlockReader.AtSignRule | src/util_fgd.cpp:371-380 | `@` with a value appends that value, as a leaf, to the children of the top of the stack; it sets the parameter state and leaves the stack alone |
| BlockReader.ParameterRule | src/util_fgd.cpp:420-425 | a value in parameter state becomes the last parameter of the top's last child; nothing else changes |
| BlockReader.AttributeRule | src/util_fgd.cpp:393-428 | a value after `=` or `:`, or in attribute state, becomes the last attribute of the top's last child; `=` sets the attribute state and `:` leaves the state alone |
| BlockReader.LastChildUpdate | src/util_fgd.cpp:420-437 | changing only the last child of a node changes only the last subtree under it |
| BlockReader.ChildRule | src/util_fgd.cpp:429-440 | in child state a value is appended as a new child unless the last child is an `input`/`output` line |
| BlockReader.FoldRule | src/util_fgd.cpp:429-437 | in child state, a value after an `input`/`output` line replaces that line; its only attribute is a marker with the line's spelling, and the number of children is unchanged |
| BlockReader.TopLevelRule | src/util_fgd.cpp:406-442 | at top level a value is read and attached nowhere: the reader is unchanged |
| BlockReader.BracketRule | src/util_fgd.cpp:382-392 | `[` enters the top's last child and sets the child state; a `]` straight after it restores the stack |
| BlockReader.CloseBracketRule | src/util_fgd.cpp:389-392 | `]` pops the top of a non-empty stack, whatever the block held, and changes neither the arena nor the state |
| BlockReader.EqualsSignRule | src/util_fgd.cpp:393-404 | `=` without a value, as before a choices or flags block, only sets the attribute state |
| BlockReader.FailureRules | src/util_fgd.cpp:371-420 | a missing value after `@` throws "Invalid value"; a missing value in an attribute position throws "Invalid attribute"; a value after `@`, `=`, `:` or in a plain position, `[` or `]` with an empty stack fails; `[`, or a value after `=` or `:` or in a parameter or attribute position, with a top that has no children fails for the missing last child |
| BlockReader.ReadBlock | src/util_fgd.cpp:350-446 | the reader's loop computes exactly the tree, or the error, of `ReadResult` |
| BlockReader.ReadEvent | src/util_fgd.cpp:371-442 | one pass of the reader's loop computes the successor state, or the error, of `Step` |
| BlockReader.AttachValue | src/util_fgd.cpp:406-442 | the `default:` branch computes exactly what `Attach` specifies |
| Loader.IsClassDeclarationSpec | src/util_fgd.cpp:506-515 | a child makes a class if and only if its name has a class type |
| Loader.ConvertFrom | src/util_fgd.cpp:480-519 | the conversion loop either finishes with data or aborts; it never reports a missing file |
| Loader.ConvertChild | src/util_fgd.cpp:482-519 | one child of the conversion either yields data or aborts |
| Loader.MissingFileIsNotFound | src/util_fgd.cpp:450-452 | a file that cannot be opened gives no data and changes nothing |
| Loader.ReadErrorAborts | src/util_fgd.cpp:371-420 | an error thrown by the reader ends the load before anything is stored |
| Loader.ConvertIncludes | src/util_fgd.cpp:482-487 | every include with a parameter is recorded in file order, whether or not it loads |
| Loader.ChildIncludes | src/util_fgd.cpp:482-487 | one child adds its include name, and only an include with a parameter adds one |
| Loader.IncludeFromCache | src/util_fgd.cpp:489-501 | an include already in the cache is taken from it: the result does not depend on the files or the depth bound, the store is unchanged, the map size is adopted only while this file's is (0, 0), and the classes are inserted without overwriting |
| Loader.IncludeFromFile | src/util_fgd.cpp:489-501 | an include missing from the cache is loaded under its lowercased name; loaded data is merged as above; a file that cannot be opened leaves only its recorded name; an aborted load aborts this one |
| Loader.IncludeIsCached | src/util_fgd.cpp:489-493 | an include loaded from a file is left in the cache under the key it was looked up with |
| Loader.LoadAdoptsIncludedMapSize | src/util_fgd.cpp:497-498 | a file with no `@mapsize` whose first declaration includes a file with a non-zero map size ends the load with that map size |
| Loader.LoadIncludes | src/util_fgd.cpp:482-487 | a load records exactly its own file's includes, in file order |
| Loader.ConvertKeepsMapSize | src/util_fgd.cpp:497-498 | once the map size is not (0, 0), no later include changes it |
| Loader.LoadKeepsOwnMapSize | src/util_fgd.cpp:463-478 | a file's own non-zero `@mapsize` is the map size of its data, whatever it includes |
| Loader.ConvertKeepsTable | src/util_fgd.cpp:499-519 | a class table entry, once made, is never replaced, whether by an included class or by a later class of the same name |
| Loader.TableLiveExtends | src/util_fgd.cpp:499-501 | a table of live classes stays live when the heap grows |
| Loader.MergeLive | src/util_fgd.cpp:497-501 | merging two tables of live classes gives a table of live classes |
| Loader.ExtendsTransitive | src/util_fgd.cpp:521-523 | growing the store twice is growing it once |
| Loader.ClassBasesInHeap | src/util_fgd.cpp:152-161 | a class built against live classes has all its bases in the heap |
| Loader.AddClassWf | src/util_fgd.cpp:516-519 | allocating a class appends it to the heap and keeps the store well formed; inserting it under its lowercased name maps a new name to the new slot, leaves the table unchanged when the name is already present (the earlier class stays), and the table refers only to live classes |
| Loader.LoadPreserves | src/util_fgd.cpp:448-525 | a load keeps the store well formed; cache entries are never removed or replaced; the heap only grows; loaded tables refer to live classes; a successful load is cached under the lowercased file name |
| Loader.ConvertPreserves | src/util_fgd.cpp:480-519 | the conversion loop keeps the store well formed and only grows it |
| Loader.ChildPreserves | src/util_fgd.cpp:482-519 | one conversion step keeps the store well formed and only grows it |
| Loader.ConvertWithoutIncludes | src/util_fgd.cpp:480-519 | without includes the cache is untouched, exactly one class is allocated per class declaration, and each declared class's lowercased name is in the table |
| Loader.LoadCachesOwnResult | src/util_fgd.cpp:521-523 | a file without includes whose lowercased name is not yet cached loads, and the cache gains exactly one entry: its data under that name |
| Loader.SelfIncludeNeverLoads | src/util_fgd.cpp:486-493 | a file that first includes itself never finishes loading, at any depth bound |
| Loader.MapSizeOfWithout | src/util_fgd.cpp:463-478 | without a case-insensitive `@mapsize` declaration the map size is (0, 0) |
| Loader.MapSizeOfAt | src/util_fgd.cpp:463-478 | when `children[i]` is the first case-insensitive `@mapsize`, the map size is its arguments 0 and 1 through `to_int`, 0 for each one missing (`DeclaredSize`) |
| Loader.FindMapSize | src/util_fgd.cpp:463-478 | the `@mapsize` search computes `MapSizeOf`, and its result is (0, 0) without a declaration and the first declaration's two arguments through `to_int`, 0 for missing ones, otherwise |
| Loader.InsertClasses | src/util_fgd.cpp:499-501 | the merge loop inserts every included class without overwriting, in any order |
| Loader.InsertClassesStep | src/util_fgd.cpp:500-501 | one insertion of the merge loop extends the merged part by one key |
| Loader.InsertAllStep | src/util_fgd.cpp:500-501 | inserting one new key after a merge equals merging a table that has that key |
| Loader.Session.LoadFgd | src/util_fgd.cpp:448-525 | the loader, with the caller's cache updated in place, returns exactly the outcome and leaves exactly the store of `LoadSpec` |
| Loader.Session.ConvertOne | src/util_fgd.cpp:482-519 | one pass of the conversion loop, in place, returns exactly the outcome and leaves exactly the store of `ConvertChild` |

## Left out

- Character scanning (`read_arguments`, `read_function`, `read_string_value`, `read_value`,
  src/util_fgd.cpp:215-341). These are wrappers over the markup scanner, whose behaviour
  is not part of this model. The reader consumes lexical events whose values are already
  read. A scanner result other than success ends the event stream, which is how
  `read_block` returns.
- The string concatenation with `+` in the scanner, and its unfinished TODO. It belongs to
  the scanner.
- The comment branch of `read_block` (src/util_fgd.cpp:360-370). What it does depends on
  the unseen `ReadNextToken` and `ReadLine`.
- File I/O (`fileFactory`, `ReadString`, `DataStream`). The factory is a map from names to
  event streams; a name outside the map cannot be opened.
- `ustring::compare`, `ustring::to_lower`, `util::to_int`, `util::to_boolean`. These
  foreign helpers are replaced by ASCII definitions in `string_util.dfy`. An overflowing
  `to_int` is truncated to 32 bits; the C library leaves that case undefined.
- Loader.LoadSpec: the include recursion has a depth bound (`fuel`). Exhausting it ends the
  load with `IncludeDepthExceeded`. The source has no bound, so a cycle of includes never
  returns; `SelfIncludeNeverLoads` shows this case never loads at any bound.
- BlockReader.ReadBlock: `top()`, `pop()` and `back()` on an empty container are undefined
  behaviour in C++. They are modelled as errors (`EmptyStack`, `NoLastChild`) that end the
  load like the two exceptions.
- BlockReader.AtSignRule: this and the other rule lemmas describe the subtree under the top
  of the stack. For a stack deeper than the root, the effect on the whole tree follows
  from the arena update, but it is not stated as a separate lemma.
- Loader.LoadCachesOwnResult: the exact new cache entry is stated for a file without includes. With includes, a nested load can reach the same lowercased name first, through a differently-cased spelling of the same name (a cyclic include never finishes, so it never writes an entry); `unordered_map::insert` then keeps that earlier entry. `LoadPreserves` states only that the key is present afterwards and that no earlier entry is replaced.
- `shared_ptr` lifetimes. Classes allocated by a load that later aborts stay in the heap, and no heap slot is ever emptied, so no load reaches the skip of expired bases in `FindKeyValue` (src/util_fgd.cpp:203); `FindInBasesSpec` and `FindFirstBaseWins` state that skip over any heap. The overloads at src/util_fgd.cpp:527-531 and 539-543 make a fresh cache for one call; after it returns, a base class kept alive only by that cache, such as one that lost a name collision when its file was merged, can expire, which the model does not capture.
  No cached table refers to them, so the difference is not observable.
- The convenience overloads of `load_fgd` (src/util_fgd.cpp:527-544). They only supply a
  fresh cache or the default file factory.
- The debug printer and the disabled `main` (src/util_fgd.cpp:546-602).
- The getters of `KeyValue` and `ClassDefinition`. They return fields of the records
  directly.
