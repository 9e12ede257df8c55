/** `read_block` (src/util_fgd.cpp:343-446): the state machine that turns the token stream of
    an FGD file into a tree of `DataObject` nodes.

    The character scanner below it (`read_value` and friends) is not modelled; the reader
    consumes lexical events whose values have already been read. The nodes the source shares
    through `shared_ptr` live in an arena: a node refers to its children by index, and the
    reader's stack holds indices, so a node pushed on the stack and the same node in its
    parent's child list are one record, as in the source. */
module BlockReader {
  import opened Wrappers
  import opened StringUtil
  import opened FgdTypes

  /** The parser state of the source's `State` enum. */
  datatype State = TopLevel | Parameters | Attributes | Children

  /** What `read_value` yields: a name, and the arguments of a `name(a, b)` form. */
  datatype Value = Value(name: string, arguments: seq<string>)

  /** One token of the block and the value read after it. `None` stands for `read_value`
      returning no object (it does so when the next token is `[`). A `Plain` value is read
      where the token is none of the others; the name of an `AtSign` value starts with `@`,
      because `@` is not consumed before the value is read. */
  datatype Event =
    | AtSign(value: Option<Value>)
    | OpenBracket
    | CloseBracket
    | EqualsSign(value: Option<Value>)
    | Colon(value: Option<Value>)
    | Plain(value: Option<Value>)

  /** Why reading stops without a tree: the two `std::runtime_error` throws, and the
      container operations on an empty stack or an empty child list, whose behaviour the
      C++ library leaves undefined. */
  datatype ParseError =
    | InvalidValue        // `@` not followed by a value
    | InvalidAttribute    // an attribute position not followed by a value
    | EmptyStack          // `top()` or `pop()` on the empty object stack
    | NoLastChild         // `back()` on an empty child list

  /** A `DataObject` in the arena. Parameters and attributes are never changed after they
      are attached, so they are plain values; children are arena indices. */
  datatype Node = Node(
    name: string,
    arguments: seq<string>,
    parameters: seq<DataObject>,
    attributes: seq<DataObject>,
    children: seq<nat>)

  /** The reader's whole state: the arena, the object stack (top last) and `state`. */
  datatype Machine = Machine(nodes: seq<Node>, stack: seq<nat>, state: State)

  /** The object `read_value` makes of a value. */
  function Leaf(v: Value): DataObject
  {
    DataObject(v.name, v.arguments, [], [], [])
  }

  function NewNode(v: Value): Node
  {
    Node(v.name, v.arguments, [], [], [])
  }

  /** `load_fgd` starts the reader with one node named `root` on the stack. */
  function Init(): Machine
  {
    Machine([Node("root", [], [], [], [])], [0], TopLevel)
  }

  /** Children come after their parent in the arena, so following children terminates. */
  ghost predicate ChildrenOrdered(nodes: seq<Node>)
  {
    forall i, k :: 0 <= i < |nodes| && 0 <= k < |nodes[i].children| ==>
      i < nodes[i].children[k] < |nodes|
  }

  /** A node is the child of at most one node, at one position: the arena is a forest. */
  ghost predicate UniqueParents(nodes: seq<Node>)
  {
    forall i, j, a, b :: 0 <= i < |nodes| && 0 <= j < |nodes| && 0 <= a < |nodes[i].children|
      && 0 <= b < |nodes[j].children| && nodes[i].children[a] == nodes[j].children[b]
      ==> i == j && a == b
  }

  ghost predicate Wf(m: Machine)
  {
    |m.nodes| > 0 && ChildrenOrdered(m.nodes) && UniqueParents(m.nodes)
    && forall k :: 0 <= k < |m.stack| ==> m.stack[k] < |m.nodes|
  }

  function Top(m: Machine): (t: nat)
    requires Wf(m) && |m.stack| > 0
    ensures t < |m.nodes|
  {
    m.stack[|m.stack| - 1]
  }

  function LastChild(nodes: seq<Node>, p: nat): nat
    requires p < |nodes| && |nodes[p].children| > 0
  {
    nodes[p].children[|nodes[p].children| - 1]
  }

  /** `children.push_back(o)` on node `p`, with `o` a new node. */
  function AddChild(nodes: seq<Node>, p: nat, n: Node): seq<Node>
    requires p < |nodes|
  {
    nodes[p := nodes[p].(children := nodes[p].children + [|nodes|])] + [n]
  }

  /** `children.back() = o` on node `p`, with `o` a new node. */
  function ReplaceLastChild(nodes: seq<Node>, p: nat, n: Node): seq<Node>
    requires p < |nodes| && |nodes[p].children| > 0
  {
    var cs := nodes[p].children;
    nodes[p := nodes[p].(children := cs[..|cs| - 1] + [|nodes|])] + [n]
  }

  function AddParameter(nodes: seq<Node>, c: nat, o: DataObject): seq<Node>
    requires c < |nodes|
  {
    nodes[c := nodes[c].(parameters := nodes[c].parameters + [o])]
  }

  function AddAttribute(nodes: seq<Node>, c: nat, o: DataObject): seq<Node>
    requires c < |nodes|
  {
    nodes[c := nodes[c].(attributes := nodes[c].attributes + [o])]
  }

  /** One pass of the reader's loop. */
  function Step(m: Machine, e: Event): Result<Machine, ParseError>
    requires Wf(m)
  {
    match e
    case AtSign(v) =>
      if v.None? then Failure(InvalidValue)
      else if |m.stack| == 0 then Failure(EmptyStack)
      else Success(Machine(AddChild(m.nodes, Top(m), NewNode(v.value)), m.stack, Parameters))
    case OpenBracket =>
      if |m.stack| == 0 then Failure(EmptyStack)
      else if |m.nodes[Top(m)].children| == 0 then Failure(NoLastChild)
      else Success(Machine(m.nodes, m.stack + [LastChild(m.nodes, Top(m))], Children))
    case CloseBracket =>
      if |m.stack| == 0 then Failure(EmptyStack)
      else Success(m.(stack := m.stack[..|m.stack| - 1]))
    case EqualsSign(v) =>
      if v.None? then Success(m.(state := Attributes))
      else if |m.stack| == 0 then Failure(EmptyStack)
      else if |m.nodes[Top(m)].children| == 0 then Failure(NoLastChild)
      else
        var c := LastChild(m.nodes, Top(m));
        Success(Machine(AddAttribute(m.nodes, c, Leaf(v.value)), m.stack, Attributes))
    case Colon(v) => Attach(m, Attributes, v)
    case Plain(v) => Attach(m, m.state, v)
  }

  /** The source's `default:` branch: the value goes where `curState` says; the reader's
      own state is left as it was. */
  function Attach(m: Machine, curState: State, v: Option<Value>): Result<Machine, ParseError>
    requires Wf(m)
  {
    if v.None? then Failure(InvalidAttribute)
    else if |m.stack| == 0 then Failure(EmptyStack)
    else
      var t := Top(m);
      var children := m.nodes[t].children;
      match curState
      case TopLevel => Success(m)
      case Parameters =>
        if |children| == 0 then Failure(NoLastChild)
        else Success(m.(nodes := AddParameter(m.nodes, LastChild(m.nodes, t), Leaf(v.value))))
      case Attributes =>
        if |children| == 0 then Failure(NoLastChild)
        else Success(m.(nodes := AddAttribute(m.nodes, LastChild(m.nodes, t), Leaf(v.value))))
      case Children =>
        if |children| > 0 && IsIoMarker(m.nodes[LastChild(m.nodes, t)].name) then
          var marker := DataObject(m.nodes[LastChild(m.nodes, t)].name, [], [], [], []);
          var io := Node(v.value.name, v.value.arguments, [], [marker], []);
          Success(m.(nodes := ReplaceLastChild(m.nodes, t, io)))
        else Success(m.(nodes := AddChild(m.nodes, t, NewNode(v.value))))
  }

  lemma AddChildWf(nodes: seq<Node>, p: nat, n: Node)
    requires |nodes| > 0 && ChildrenOrdered(nodes) && UniqueParents(nodes) && p < |nodes| && n.children == []
    ensures var r := AddChild(nodes, p, n);
            |r| == |nodes| + 1 && ChildrenOrdered(r) && UniqueParents(r)
  {
    var r := AddChild(nodes, p, n);
    forall i, j, a, b | 0 <= i < |r| && 0 <= j < |r| && 0 <= a < |r[i].children|
      && 0 <= b < |r[j].children| && r[i].children[a] == r[j].children[b]
      ensures i == j && a == b
    {
      if !(i == p && a == |nodes[p].children|) && !(j == p && b == |nodes[p].children|) {
        assert r[i].children[a] == nodes[i].children[a];
        assert r[j].children[b] == nodes[j].children[b];
      }
    }
  }

  lemma ReplaceLastChildWf(nodes: seq<Node>, p: nat, n: Node)
    requires |nodes| > 0 && ChildrenOrdered(nodes) && UniqueParents(nodes) && p < |nodes|
    requires |nodes[p].children| > 0 && n.children == []
    ensures var r := ReplaceLastChild(nodes, p, n);
            |r| == |nodes| + 1 && ChildrenOrdered(r) && UniqueParents(r)
  {
    var r := ReplaceLastChild(nodes, p, n);
    var last := |nodes[p].children| - 1;
    forall i, j, a, b | 0 <= i < |r| && 0 <= j < |r| && 0 <= a < |r[i].children|
      && 0 <= b < |r[j].children| && r[i].children[a] == r[j].children[b]
      ensures i == j && a == b
    {
      if !(i == p && a == last) && !(j == p && b == last) {
        assert r[i].children[a] == nodes[i].children[a];
        assert r[j].children[b] == nodes[j].children[b];
      }
    }
  }

  /** The reader keeps the arena a forest ordered by index, with the stack inside it. */
  lemma StepPreservesWf(m: Machine, e: Event)
    requires Wf(m)
    ensures Step(m, e).Success? ==> Wf(Step(m, e).value)
  {
    if Step(m, e).Success? && |m.stack| > 0 {
      var t := Top(m);
      match e
      case AtSign(v) => AddChildWf(m.nodes, t, NewNode(v.value));
      case OpenBracket =>
      case CloseBracket =>
      case EqualsSign(v) =>
        if v.Some? {
          var c := LastChild(m.nodes, t);
          FieldUpdateWf(m.nodes, c, m.nodes[c].(attributes := m.nodes[c].attributes + [Leaf(v.value)]));
        }
      case Colon(v) => AttachPreservesWf(m, Attributes, v.value);
      case Plain(v) => AttachPreservesWf(m, m.state, v.value);
    }
  }

  /** A change to a node that keeps its children keeps the arena a forest ordered by index. */
  lemma FieldUpdateWf(nodes: seq<Node>, c: nat, n: Node)
    requires ChildrenOrdered(nodes) && UniqueParents(nodes) && c < |nodes|
    requires n.children == nodes[c].children
    ensures ChildrenOrdered(nodes[c := n]) && UniqueParents(nodes[c := n])
  {
    assert forall i :: 0 <= i < |nodes| ==> nodes[c := n][i].children == nodes[i].children;
  }

  /** Attaching a value keeps the reader well formed. */
  lemma AttachPreservesWf(m: Machine, curState: State, v: Value)
    requires Wf(m) && |m.stack| > 0
    ensures Attach(m, curState, Some(v)).Success? ==> Wf(Attach(m, curState, Some(v)).value)
  {
    var t := Top(m);
    var children := m.nodes[t].children;
    match curState
    case TopLevel =>
    case Parameters =>
      if |children| > 0 {
        var c := LastChild(m.nodes, t);
        FieldUpdateWf(m.nodes, c, m.nodes[c].(parameters := m.nodes[c].parameters + [Leaf(v)]));
      }
    case Attributes =>
      if |children| > 0 {
        var c := LastChild(m.nodes, t);
        FieldUpdateWf(m.nodes, c, m.nodes[c].(attributes := m.nodes[c].attributes + [Leaf(v)]));
      }
    case Children =>
      if |children| > 0 && IsIoMarker(m.nodes[LastChild(m.nodes, t)].name) {
        var marker := DataObject(m.nodes[LastChild(m.nodes, t)].name, [], [], [], []);
        ReplaceLastChildWf(m.nodes, t, Node(v.name, v.arguments, [], [marker], []));
      } else {
        AddChildWf(m.nodes, t, NewNode(v));
      }
  }

  /** The reader run over a sequence of events, stopping at the first failure. */
  function Run(m: Machine, events: seq<Event>): (r: Result<Machine, ParseError>)
    requires Wf(m)
    ensures r.Success? ==> Wf(r.value)
    decreases |events|
  {
    if |events| == 0 then Success(m)
    else
      var before := Run(m, events[..|events| - 1]);
      if before.Failure? then before
      else
        StepPreservesWf(before.value, events[|events| - 1]);
        Step(before.value, events[|events| - 1])
  }

  /** The tree of `DataObject`s rooted at arena node `i`. */
  function ToTree(nodes: seq<Node>, i: nat): (o: DataObject)
    requires ChildrenOrdered(nodes) && i < |nodes|
    ensures o.name == nodes[i].name && o.arguments == nodes[i].arguments
    ensures o.parameters == nodes[i].parameters && o.attributes == nodes[i].attributes
    ensures |o.children| == |nodes[i].children|
    decreases |nodes| - i
  {
    var n := nodes[i];
    DataObject(n.name, n.arguments, n.parameters, n.attributes,
      seq(|n.children|, k requires 0 <= k < |n.children| => ToTree(nodes, n.children[k])))
  }

  /** What the reader leaves behind for the loader: the tree under the root node, or why
      reading stopped. */
  function ReadResult(events: seq<Event>): Result<DataObject, ParseError>
  {
    var r := Run(Init(), events);
    if r.Failure? then Failure(r.error) else Success(ToTree(r.value.nodes, 0))
  }

  /** Reading the events in two parts is reading them at once. */
  lemma {:induction false} RunAppend(m: Machine, a: seq<Event>, b: seq<Event>)
    requires Wf(m)
    ensures Run(m, a + b) == (if Run(m, a).Failure? then Run(m, a) else Run(Run(m, a).value, b))
    decreases |b|
  {
    if |b| > 0 {
      var n := |b| - 1;
      assert (a + b)[..|a + b| - 1] == a + b[..n];
      assert (a + b)[|a + b| - 1] == b[n];
      RunAppend(m, a, b[..n]);
    } else {
      assert a + b == a;
    }
  }

  /** Moving on from a failure changes nothing: the first error is the result. */
  lemma RunStopsAtFailure(m: Machine, events: seq<Event>, i: nat)
    requires Wf(m) && i <= |events| && Run(m, events[..i]).Failure?
    ensures Run(m, events) == Run(m, events[..i])
    decreases |events|
  {
    assert events == events[..i] + events[i..];
    RunAppend(m, events[..i], events[i..]);
  }

  // ----- The rules, stated on the tree under the top of the stack -----

  /** The tree is unchanged by changes to nodes before its root. */
  lemma {:induction false} ToTreeFrame(nodes: seq<Node>, nodes': seq<Node>, i: nat)
    requires ChildrenOrdered(nodes) && ChildrenOrdered(nodes') && i < |nodes| <= |nodes'|
    requires forall j :: i <= j < |nodes| ==> nodes'[j] == nodes[j]
    ensures ToTree(nodes', i) == ToTree(nodes, i)
    decreases |nodes| - i
  {
    var cs := nodes[i].children;
    forall k | 0 <= k < |cs|
      ensures ToTree(nodes', cs[k]) == ToTree(nodes, cs[k])
    {
      ToTreeFrame(nodes, nodes', cs[k]);
    }
    assert ToTree(nodes', i).children == ToTree(nodes, i).children;
  }

  /** The tree is unchanged by a change to node `c` when it is rooted after `c`'s parent and
      is not `c` itself: in a forest, `c` is then not part of it. */
  lemma {:induction false} ToTreeAvoids(nodes: seq<Node>, nodes': seq<Node>, i: nat, p: nat, c: nat)
    requires ChildrenOrdered(nodes) && ChildrenOrdered(nodes') && UniqueParents(nodes)
    requires |nodes'| == |nodes| && p < i < |nodes| && i != c
    requires c in nodes[p].children
    requires forall j :: 0 <= j < |nodes| && j != c ==> nodes'[j] == nodes[j]
    ensures ToTree(nodes', i) == ToTree(nodes, i)
    decreases |nodes| - i
  {
    var cs := nodes[i].children;
    forall k | 0 <= k < |cs|
      ensures ToTree(nodes', cs[k]) == ToTree(nodes, cs[k])
    {
      var a :| 0 <= a < |nodes[p].children| && nodes[p].children[a] == c;
      assert nodes[i].children[k] != nodes[p].children[a];
      ToTreeAvoids(nodes, nodes', cs[k], p, c);
    }
    assert ToTree(nodes', i).children == ToTree(nodes, i).children;
  }

  /** `@` with a value adds a child, a leaf holding the value, to the top of the stack and
      switches to reading parameters. */
  lemma AtSignRule(m: Machine, v: Value)
    requires Wf(m) && |m.stack| > 0
    ensures var r := Step(m, AtSign(Some(v)));
            r.Success? && r.value.stack == m.stack && r.value.state == Parameters
            && var before := ToTree(m.nodes, Top(m));
               ToTree(r.value.nodes, Top(m)) == before.(children := before.children + [Leaf(v)])
  {
    var t := Top(m);
    var nodes' := AddChild(m.nodes, t, NewNode(v));
    AddChildWf(m.nodes, t, NewNode(v));
    var before := ToTree(m.nodes, t);
    var after := ToTree(nodes', t);
    var cs := m.nodes[t].children;
    forall k | 0 <= k < |cs|
      ensures after.children[k] == before.children[k]
    {
      ToTreeFrame(m.nodes, nodes', cs[k]);
    }
    assert after.children[|cs|] == ToTree(nodes', |m.nodes|);
    assert after.children == before.children + [Leaf(v)];
  }

  /** A value in parameter state becomes the next parameter of the top's last child. */
  lemma ParameterRule(m: Machine, v: Value)
    requires Wf(m) && |m.stack| > 0 && m.state == Parameters && |m.nodes[Top(m)].children| > 0
    ensures var r := Step(m, Plain(Some(v)));
            r.Success? && r.value.stack == m.stack && r.value.state == Parameters
            && var before := ToTree(m.nodes, Top(m));
               var n := |before.children| - 1;
               ToTree(r.value.nodes, Top(m)) == before.(children := before.children[..n]
                 + [before.children[n].(parameters := before.children[n].parameters + [Leaf(v)])])
  {
    var t := Top(m);
    var c := LastChild(m.nodes, t);
    var nodes' := AddParameter(m.nodes, c, Leaf(v));
    LastChildUpdate(m.nodes, nodes', t);
  }

  /** A value after `:`, or any value in attribute state, becomes the next attribute of the
      top's last child. */
  lemma AttributeRule(m: Machine, e: Event, v: Value)
    requires Wf(m) && |m.stack| > 0 && |m.nodes[Top(m)].children| > 0
    requires e == Colon(Some(v)) || e == EqualsSign(Some(v)) || (e == Plain(Some(v)) && m.state == Attributes)
    ensures var r := Step(m, e);
            r.Success? && r.value.stack == m.stack
            && (r.value.state == if e.Plain? || e.Colon? then m.state else Attributes)
            && var before := ToTree(m.nodes, Top(m));
               var n := |before.children| - 1;
               ToTree(r.value.nodes, Top(m)) == before.(children := before.children[..n]
                 + [before.children[n].(attributes := before.children[n].attributes + [Leaf(v)])])
  {
    var t := Top(m);
    var c := LastChild(m.nodes, t);
    var nodes' := AddAttribute(m.nodes, c, Leaf(v));
    LastChildUpdate(m.nodes, nodes', t);
  }

  /** Updating only the last child of `t` changes only the last subtree under `t`. */
  lemma LastChildUpdate(nodes: seq<Node>, nodes': seq<Node>, t: nat)
    requires ChildrenOrdered(nodes) && UniqueParents(nodes) && t < |nodes| && |nodes[t].children| > 0
    requires |nodes'| == |nodes|
    requires forall j :: 0 <= j < |nodes| && j != LastChild(nodes, t) ==> nodes'[j] == nodes[j]
    requires nodes'[LastChild(nodes, t)].children == nodes[LastChild(nodes, t)].children
    ensures ChildrenOrdered(nodes')
    ensures var before := ToTree(nodes, t);
            var n := |before.children| - 1;
            var c := LastChild(nodes, t);
            ToTree(nodes', t) == before.(children := before.children[..n] + [ToTree(nodes', c)])
    ensures var c := LastChild(nodes, t);
            ToTree(nodes', c) == ToTree(nodes, c).(name := nodes'[c].name, arguments := nodes'[c].arguments,
              parameters := nodes'[c].parameters, attributes := nodes'[c].attributes)
  {
    var c := LastChild(nodes, t);
    var cs := nodes[t].children;
    var n := |cs| - 1;
    SameChildrenOrdered(nodes, nodes', c);
    var before := ToTree(nodes, t);
    var after := ToTree(nodes', t);
    forall k | 0 <= k < n
      ensures after.children[k] == before.children[k]
    {
      assert cs[k] != c by {
        assert nodes[t].children[k] != nodes[t].children[n];
      }
      ToTreeAvoids(nodes, nodes', cs[k], t, c);
    }
    assert after.children == before.children[..n] + [ToTree(nodes', c)];
    ToTreeOfUpdated(nodes, nodes', c);
  }

  /** Changing one node's fields other than its children keeps the arena ordered. */
  lemma SameChildrenOrdered(nodes: seq<Node>, nodes': seq<Node>, c: nat)
    requires ChildrenOrdered(nodes) && |nodes'| == |nodes| && c < |nodes|
    requires forall j :: 0 <= j < |nodes| && j != c ==> nodes'[j] == nodes[j]
    requires nodes'[c].children == nodes[c].children
    ensures ChildrenOrdered(nodes')
  {
    assert forall i :: 0 <= i < |nodes'| ==> nodes'[i].children == nodes[i].children;
  }

  /** The tree at a changed node keeps its subtrees and takes the node's new fields. */
  lemma ToTreeOfUpdated(nodes: seq<Node>, nodes': seq<Node>, c: nat)
    requires ChildrenOrdered(nodes) && ChildrenOrdered(nodes') && |nodes'| == |nodes| && c < |nodes|
    requires forall j :: 0 <= j < |nodes| && j != c ==> nodes'[j] == nodes[j]
    requires nodes'[c].children == nodes[c].children
    ensures ToTree(nodes', c) == ToTree(nodes, c).(name := nodes'[c].name, arguments := nodes'[c].arguments,
              parameters := nodes'[c].parameters, attributes := nodes'[c].attributes)
  {
    forall k | 0 <= k < |nodes[c].children|
      ensures ToTree(nodes', nodes[c].children[k]) == ToTree(nodes, nodes[c].children[k])
    {
      ToTreeFrame(nodes, nodes', nodes[c].children[k]);
    }
    assert ToTree(nodes', c).children == ToTree(nodes, c).children;
  }

  /** In child state a value becomes a new child of the top, unless the last child is an
      `input` or `output` line. */
  lemma ChildRule(m: Machine, v: Value)
    requires Wf(m) && |m.stack| > 0 && m.state == Children
    requires |m.nodes[Top(m)].children| == 0 || !IsIoMarker(m.nodes[LastChild(m.nodes, Top(m))].name)
    ensures var r := Step(m, Plain(Some(v)));
            r.Success? && r.value.stack == m.stack && r.value.state == Children
            && var before := ToTree(m.nodes, Top(m));
               ToTree(r.value.nodes, Top(m)) == before.(children := before.children + [Leaf(v)])
  {
    var t := Top(m);
    var nodes' := AddChild(m.nodes, t, NewNode(v));
    AddChildWf(m.nodes, t, NewNode(v));
    var before := ToTree(m.nodes, t);
    var after := ToTree(nodes', t);
    var cs := m.nodes[t].children;
    forall k | 0 <= k < |cs|
      ensures after.children[k] == before.children[k]
    {
      ToTreeFrame(m.nodes, nodes', cs[k]);
    }
    assert after.children[|cs|] == ToTree(nodes', |m.nodes|);
    assert after.children == before.children + [Leaf(v)];
  }

  /** In child state, a value after an `input` or `output` line replaces that line: the new
      child carries the value and, as its first attribute, the marker with the line's
      spelling, and the number of children stays the same. */
  lemma FoldRule(m: Machine, v: Value)
    requires Wf(m) && |m.stack| > 0 && m.state == Children
    requires |m.nodes[Top(m)].children| > 0 && IsIoMarker(m.nodes[LastChild(m.nodes, Top(m))].name)
    ensures var r := Step(m, Plain(Some(v)));
            r.Success? && r.value.stack == m.stack && r.value.state == Children
            && var before := ToTree(m.nodes, Top(m));
               var n := |before.children| - 1;
               var marker := DataObject(before.children[n].name, [], [], [], []);
               ToTree(r.value.nodes, Top(m)) == before.(children := before.children[..n]
                 + [DataObject(v.name, v.arguments, [], [marker], [])])
  {
    var t := Top(m);
    var c := LastChild(m.nodes, t);
    var marker := DataObject(m.nodes[c].name, [], [], [], []);
    var io := Node(v.name, v.arguments, [], [marker], []);
    var nodes' := ReplaceLastChild(m.nodes, t, io);
    ReplaceLastChildWf(m.nodes, t, io);
    var before := ToTree(m.nodes, t);
    var after := ToTree(nodes', t);
    var cs := m.nodes[t].children;
    var n := |cs| - 1;
    forall k | 0 <= k < n
      ensures after.children[k] == before.children[k]
    {
      assert nodes'[t].children[k] == cs[k];
      ToTreeFrame(m.nodes, nodes', cs[k]);
    }
    assert after.children[n] == ToTree(nodes', |m.nodes|);
    assert after.children == before.children[..n] + [DataObject(v.name, v.arguments, [], [marker], [])];
  }

  /** At top level a value is read and attached nowhere. */
  lemma TopLevelRule(m: Machine, v: Value)
    requires Wf(m) && |m.stack| > 0 && m.state == TopLevel
    ensures Step(m, Plain(Some(v))) == Success(m)
  {
  }

  /** `[` enters the top's last child, and the matching `]` comes back out of it. */
  lemma BracketRule(m: Machine)
    requires Wf(m) && |m.stack| > 0 && |m.nodes[Top(m)].children| > 0
    ensures var r := Step(m, OpenBracket);
            r.Success? && r.value.nodes == m.nodes && r.value.state == Children
            && Top(r.value) == LastChild(m.nodes, Top(m))
            && Step(r.value, CloseBracket) == Success(m.(state := Children))
  {
    var r := Step(m, OpenBracket).value;
    assert r.stack[..|r.stack| - 1] == m.stack;
  }

  /** `]` pops the stack whatever the block it closes held; nothing else changes. */
  lemma CloseBracketRule(m: Machine)
    requires Wf(m) && |m.stack| > 0
    ensures var r := Step(m, CloseBracket);
            r.Success? && r.value.nodes == m.nodes && r.value.state == m.state
            && r.value.stack == m.stack[..|m.stack| - 1]
  {
  }

  /** `=` without a value, as in the `= [` that opens a choices or flags block, only sets
      the attribute state. */
  lemma EqualsSignRule(m: Machine)
    requires Wf(m)
    ensures var r := Step(m, EqualsSign(None));
            r.Success? && r.value.nodes == m.nodes && r.value.stack == m.stack
            && r.value.state == Attributes
  {
  }

  /** The error conditions: a missing value after `@` or in an attribute position, any
      event that needs the top of an empty stack, and any event that needs the last child
      of a top without children. */
  lemma FailureRules(m: Machine, e: Event)
    requires Wf(m)
    ensures e == AtSign(None) ==> Step(m, e) == Failure(InvalidValue)
    ensures (e == Colon(None) || e == Plain(None)) ==> Step(m, e) == Failure(InvalidAttribute)
    ensures (|m.stack| == 0 && (e.AtSign? || e.EqualsSign? || e.Colon? || e.Plain?) && e.value.Some?) ==>
              Step(m, e) == Failure(EmptyStack)
    ensures |m.stack| == 0 && (e.OpenBracket? || e.CloseBracket?) ==> Step(m, e) == Failure(EmptyStack)
    ensures |m.stack| > 0 && |m.nodes[Top(m)].children| == 0 ==>
              ((e.OpenBracket? || ((e.EqualsSign? || e.Colon?) && e.value.Some?)) ==> Step(m, e) == Failure(NoLastChild))
    ensures |m.stack| > 0 && |m.nodes[Top(m)].children| == 0 && (m.state.Parameters? || m.state.Attributes?) ==>
              (e.Plain? && e.value.Some? ==> Step(m, e) == Failure(NoLastChild))
  {
  }

  /** `read_block` over a stream of events: the root node on the stack, then one event at a
      time; the first error ends the read. Every read that ends without an error leaves the
      tree under the root behind. */
  method ReadBlock(events: seq<Event>) returns (r: Result<DataObject, ParseError>)
    ensures r == ReadResult(events)
  {
    var m := Machine([Node("root", [], [], [], [])], [0], TopLevel);
    var i := 0;
    while i < |events|
      invariant 0 <= i <= |events|
      invariant Wf(m)
      invariant Run(Init(), events[..i]) == Success(m)
    {
      var next, err := ReadEvent(m, events[i]);
      assert events[..i + 1][..i] == events[..i];
      if err.Some? {
        RunStopsAtFailure(Init(), events, i + 1);
        return Failure(err.value);
      }
      StepPreservesWf(m, events[i]);
      m := next;
      i := i + 1;
    }
    assert events[..i] == events;
    r := Success(ToTree(m.nodes, 0));
  }

  /** One pass of the loop of `read_block`: the token's branch of the `switch`. */
  method ReadEvent(m: Machine, e: Event) returns (next: Machine, err: Option<ParseError>)
    requires Wf(m)
    ensures match Step(m, e)
            case Success(m') => err.None? && next == m'
            case Failure(x) => err == Some(x)
  {
    var nodes, stack, state := m.nodes, m.stack, m.state;
    err := None;
    match e {
      case AtSign(v) =>
        if v.None? {
          err := Some(InvalidValue);
        } else if |stack| == 0 {
          err := Some(EmptyStack);
        } else {
          state := Parameters;
          nodes := AddChild(nodes, stack[|stack| - 1], NewNode(v.value));
        }
      case OpenBracket =>
        if |stack| == 0 {
          err := Some(EmptyStack);
        } else if |nodes[stack[|stack| - 1]].children| == 0 {
          err := Some(NoLastChild);
        } else {
          stack := stack + [LastChild(nodes, stack[|stack| - 1])];
          state := Children;
        }
      case CloseBracket =>
        if |stack| == 0 {
          err := Some(EmptyStack);
        } else {
          stack := stack[..|stack| - 1];
        }
      case EqualsSign(v) =>
        state := Attributes;
        if v.Some? {
          if |stack| == 0 {
            err := Some(EmptyStack);
          } else if |nodes[stack[|stack| - 1]].children| == 0 {
            err := Some(NoLastChild);
          } else {
            nodes := AddAttribute(nodes, LastChild(nodes, stack[|stack| - 1]), Leaf(v.value));
          }
        }
      case Colon(v) =>
        nodes, err := AttachValue(m, Attributes, v);
      case Plain(v) =>
        nodes, err := AttachValue(m, state, v);
    }
    next := Machine(nodes, stack, state);
  }

  /** The `default:` branch of `read_block`: route the value by `curState`. */
  method AttachValue(m: Machine, curState: State, v: Option<Value>) returns (nodes: seq<Node>, err: Option<ParseError>)
    requires Wf(m)
    ensures match Attach(m, curState, v)
            case Success(m') => err.None? && nodes == m'.nodes
            case Failure(e) => err == Some(e)
  {
    nodes := m.nodes;
    err := None;
    if v.None? {
      err := Some(InvalidAttribute);
      return;
    }
    if |m.stack| == 0 {
      err := Some(EmptyStack);
      return;
    }
    var top := m.stack[|m.stack| - 1];
    var children := nodes[top].children;
    match curState {
      case TopLevel =>
      case Parameters =>
        if |children| == 0 {
          err := Some(NoLastChild);
        } else {
          nodes := AddParameter(nodes, LastChild(nodes, top), Leaf(v.value));
        }
      case Attributes =>
        if |children| == 0 {
          err := Some(NoLastChild);
        } else {
          nodes := AddAttribute(nodes, LastChild(nodes, top), Leaf(v.value));
        }
      case Children =>
        if |children| > 0 && IsIoMarker(nodes[LastChild(nodes, top)].name) {
          var marker := DataObject(nodes[LastChild(nodes, top)].name, [], [], [], []);
          nodes := ReplaceLastChild(nodes, top, Node(v.value.name, v.value.arguments, [], [marker], []));
        } else {
          nodes := AddChild(nodes, top, NewNode(v.value));
        }
    }
  }
}
