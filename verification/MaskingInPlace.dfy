/** The masking walk as the code runs it: it assigns and deletes inside a deep copy of the record
    (`src/databridge/export/masking.py`), and amounts to the walk on values in `Masking`. */
module MaskingInPlace {
  import opened Wrappers
  import opened JsonValues
  import opened Paths
  import opened Containers
  import Masking

  /** `_decode_and_index`: the container to act on, freshly decoded when it was text, and the
      position in it; null when there is none. */
  method DecodeAndIndex(c: Codec, container: Value, key: string) returns (node: Node?, at: nat)
    requires Holds(container)
    ensures node == null <==> Locate(Decode(c, Read(container)), key).None?
    ensures node != null ==>
              && node.Valid() && node.Contents() == Decode(c, Read(container))
              && Position(node.isList, node.keys, key) == Some(at)
              && (if container.Ref? then node == container.node else container.json.Str? && fresh(node.Repr))
  {
    var decoded := container;
    if container.Plain? && container.json.Str? && c.loads(container.json.s).Some? {
      decoded := Build(c.loads(container.json.s).value);
    }
    assert Read(decoded) == Decode(c, Read(container));
    if decoded.Plain? { return null, 0; }
    PositionIs(decoded.node.isList, decoded.node.keys, decoded.node.models, key);
    match Position(decoded.node.isList, decoded.node.keys, key) {
      case None => return null, 0;
      case Some(i) => return decoded.node, i;
    }
  }

  /** `node[key] = v`, where the old child is given up or has become `v`. */
  method Assign(node: Node, i: nat, v: Value, ghost nodes: set<Node>)
    requires |node.keys| == |node.values| == |node.models| && i < |node.values|
    requires Forest(Without(node.values, i), Without(node.models, i), nodes)
    requires Holds(v) && Footprint(v) !! nodes && node !in Footprint(v) && node !in nodes
    modifies node
    ensures node.Valid() && node.Repr == {node} + nodes + old(Footprint(v))
    ensures node.keys == old(node.keys) && node.models == old(node.models)[i := old(Read(v))]
  {
    var values := node.values;
    ghost var models := node.models;
    InsertTree(Without(values, i), Without(models, i), nodes, i, v);
    SetWithout(values, i, v);
    SetWithout(models, i, Read(v));
    node.Update(node.keys, values[i := v], models[i := Read(v)], nodes + Footprint(v));
  }

  function Without<T>(s: seq<T>, i: nat): seq<T>
    requires i < |s|
  {
    s[..i] + s[i + 1..]
  }

  lemma SetWithout<T>(s: seq<T>, i: nat, x: T)
    requires i < |s|
    ensures Without(s, i)[..i] + [x] + Without(s, i)[i..] == s[i := x]
  {
  }

  /** `_apply_action`. */
  method ApplyAction(c: Codec, node: Node, i: nat, action: Masking.Action)
    requires node.Valid() && i < |node.keys|
    modifies node
    ensures node.Valid() && node.Repr <= old(node.Repr)
    ensures match Masking.Written(c, action, old(node.models)[i])
      case Some(w) => node.keys == old(node.keys) && node.models == old(node.models)[i := w]
      case None => node.keys == Without(old(node.keys), i) && node.models == Without(old(node.models), i)
  {
    Branch(node, i);
    var value := Snapshot(node.values[i]);
    var others := Without(node.values, i);
    RemoveTree(node.values, node.models, node.Repr - {node}, i);
    if action == Masking.Drop {
      node.Update(Without(node.keys, i), others, Without(node.models, i), Nodes(others));
    } else {
      Assign(node, i, Plain(Masking.Written(c, action, value).value), Nodes(others));
    }
  }

  /** Text is walked through as the container that it decodes to. */
  lemma TextWalk(c: Codec, v: Json, parts: seq<string>, action: Masking.Action)
    requires parts != [] && Locate(Decode(c, v), parts[0]).Some?
    ensures var (after, applied) := Masking.ApplyAtPath(c, Decode(c, v), parts, action);
      Masking.ApplyAtPath(c, v, parts, action) == (Masking.Encode(c, v, after), applied)
  {
    assert Decode(c, Decode(c, v)) == Decode(c, v);
  }

  /** What the walk makes of a container, from its first position on. */
  lemma WalkAt(c: Codec, isList: bool, keys: seq<string>, models: seq<Json>, i: nat,
               parts: seq<string>, action: Masking.Action)
    requires |keys| == |models| && parts != [] && Position(isList, keys, parts[0]) == Some(i)
    ensures Masking.ApplyAtPath(c, Assemble(isList, keys, models), parts, action) ==
      if |parts| > 1 then
        var (child, applied) := Masking.ApplyAtPath(c, models[i], parts[1..], action);
        (Assemble(isList, keys, models[i := child]), applied)
      else
        match Masking.Written(c, action, models[i])
        case Some(w) => (Assemble(isList, keys, models[i := w]), true)
        case None => (Assemble(isList, Without(keys, i), Without(models, i)), true)
  {
    PositionIs(isList, keys, models, parts[0]);
  }

  /** One container of the walk, which stays the object that it is. */
  method ApplyAt(c: Codec, node: Node, i: nat, parts: seq<string>, action: Masking.Action) returns (applied: bool)
    requires node.Valid() && parts != [] && Position(node.isList, node.keys, parts[0]) == Some(i)
    modifies node.Repr
    ensures node.Valid() && fresh(node.Repr - old(node.Repr))
    ensures (node.Contents(), applied) == Masking.ApplyAtPath(c, old(node.Contents()), parts, action)
    decreases parts, 0
  {
    WalkAt(c, node.isList, node.keys, node.models, i, parts, action);
    if |parts| == 1 {
      ApplyAction(c, node, i, action);
      applied := true;
    } else {
      Branch(node, i);
      RemoveTree(node.values, node.models, node.Repr - {node}, i);
      ghost var nodes := Nodes(Without(node.values, i));
      var child;
      child, applied := ApplyAtPath(c, node.values[i], parts[1..], action);
      Assign(node, i, child, nodes);
    }
  }

  /** `_apply_at_path`. A container that is held by reference is changed where it is. */
  method ApplyAtPath(c: Codec, container: Value, parts: seq<string>, action: Masking.Action)
    returns (out: Value, applied: bool)
    requires Holds(container) && parts != []
    modifies Footprint(container)
    ensures Holds(out) && fresh(Footprint(out) - old(Footprint(container)))
    ensures (Read(out), applied) == Masking.ApplyAtPath(c, old(Read(container)), parts, action)
    ensures container.Ref? ==> out == container
    decreases parts, 1
  {
    var node, i := DecodeAndIndex(c, container, parts[0]);
    if node == null { return container, false; }
    TextWalk(c, Read(container), parts, action);
    applied := ApplyAt(c, node, i, parts, action);
    out := Ref(node);
    if container.Plain? {
      var json := Snapshot(out);
      out := Plain(Str(c.dumps(json)));
    }
  }

  /** `apply_masking`: the record itself is left alone, and the copy ends as the rule list says. */
  method ApplyMasking(c: Codec, record: Value, rules: seq<Masking.Rule>) returns (result: Value)
    requires Holds(record)
    ensures Holds(result) && fresh(Footprint(result))
    ensures Read(result) == Masking.MaskAll(c, Read(record), rules)
    ensures Holds(record) && Read(record) == old(Read(record))
    ensures Lawful(c) && JsonValues.Valid(Read(record)) && Masking.DropsMoveNothing(c, Read(record), rules) ==>
              forall j | 0 <= j < |rules| :: Masking.KeepsPromise(c, Read(record), rules, j, Read(result))
  {
    result := DeepCopy(record);
    for k := 0 to |rules|
      invariant Holds(result) && fresh(Footprint(result))
      invariant Read(result) == Masking.MaskAll(c, old(Read(record)), rules[..k])
    {
      assert rules[..k + 1][..k] == rules[..k];
      var applied;
      result, applied := ApplyAtPath(c, result, rules[k].Parts(), rules[k].action);
    }
    assert rules[..|rules|] == rules;
    EveryRuleLeaves(c, Read(record), rules);
  }

  lemma EveryRuleLeaves(c: Codec, record: Json, rules: seq<Masking.Rule>)
    ensures Lawful(c) && JsonValues.Valid(record) && Masking.DropsMoveNothing(c, record, rules) ==>
              forall j | 0 <= j < |rules| :: Masking.KeepsPromise(c, record, rules, j, Masking.MaskAll(c, record, rules))
  {
    if Lawful(c) && JsonValues.Valid(record) && Masking.DropsMoveNothing(c, record, rules) {
      forall j | 0 <= j < |rules| ensures Masking.KeepsPromise(c, record, rules, j, Masking.MaskAll(c, record, rules)) {
        Masking.RuleListLeaves(c, record, rules, j);
      }
    }
  }
}
