/** Dicts and lists as the objects that Python mutates: trees of nodes, read back as the JSON values
    that the specification functions work on. */
module Containers {
  import opened Wrappers
  import opened JsonValues
  import opened Paths

  /** A value as a variable holds it: a container is held by reference. */
  datatype Value = Plain(json: Json) | Ref(node: Node)

  /** The JSON value that is held. */
  ghost function Read(v: Value): Json
    reads if v.Ref? then {v.node} else {}
  {
    if v.Ref? then v.node.Contents() else v.json
  }

  ghost function Footprint(v: Value): set<Node>
    reads if v.Ref? then {v.node} else {}
  {
    if v.Ref? then v.node.Repr else {}
  }

  ghost predicate Holds(v: Value)
    reads if v.Ref? then {v.node} + v.node.Repr else {}
  {
    if v.Ref? then v.node.Valid() else !IsContainer(v.json)
  }

  /** The value holds `model`, with nodes from `nodes` only. */
  ghost predicate Planted(v: Value, model: Json, nodes: set<Node>)
    reads nodes
    decreases nodes, 1
  {
    if v.Ref? then v.node in nodes && v.node.Repr <= nodes && v.node.Valid() && v.node.Contents() == model
    else v.json == model && !IsContainer(model)
  }

  /** Values that hold the models and share no node. */
  ghost predicate Forest(values: seq<Value>, models: seq<Json>, nodes: set<Node>)
    reads nodes
    decreases nodes, 2
  {
    && |values| == |models|
    && (forall i | 0 <= i < |values| :: Planted(values[i], models[i], nodes))
    && (forall i, j | 0 <= i < j < |values| :: Footprint(values[i]) !! Footprint(values[j]))
  }

  /** The JSON container with these elements, or with these entries. */
  function Assemble(isList: bool, keys: seq<string>, models: seq<Json>): Json {
    if isList || |keys| != |models| then Arr(models)
    else Obj(seq(|keys|, i requires 0 <= i < |keys| => Field(keys[i], models[i])))
  }

  /** A list, or a dict whose entry `i` has key `keys[i]`; the keys of a list are not used. */
  class Node {
    const isList: bool
    var keys: seq<string>
    var values: seq<Value>
    ghost var Repr: set<Node>
    ghost var models: seq<Json>

    ghost predicate Valid()
      reads this, Repr
      ensures Valid() ==> this in Repr && |keys| == |values| == |models|
      decreases Repr, 0
    {
      && this in Repr && |keys| == |values|
      && Forest(values, models, Repr - {this})
    }

    ghost function Contents(): Json
      reads this
    {
      Assemble(isList, keys, models)
    }

    constructor (isList: bool)
      ensures Valid() && fresh(Repr) && this.isList == isList && keys == [] && models == []
    {
      this.isList := isList;
      keys, values, models, Repr := [], [], [], {this};
    }

    method Update(keys: seq<string>, values: seq<Value>, ghost models: seq<Json>, ghost nodes: set<Node>)
      requires Forest(values, models, nodes) && this !in nodes && |keys| == |values|
      modifies this
      ensures Valid() && Repr == {this} + nodes
      ensures this.keys == keys && this.models == models
    {
      this.keys, this.values, this.models, Repr := keys, values, models, {this} + nodes;
      assert Repr - {this} == nodes;
    }

    /** Adds an element, or an entry at the end. */
    method Append(key: string, v: Value)
      requires Valid() && Holds(v) && Footprint(v) !! Repr
      modifies this
      ensures Valid() && Repr == old(Repr) + Footprint(v)
      ensures keys == old(keys) + [key] && models == old(models) + [old(Read(v))]
    {
      ghost var nodes := Repr - {this};
      InsertTree(values, models, nodes, |values|, v);
      assert values[..|values|] == values && models[..|models|] == models;
      assert values[|values|..] == [] && models[|models|..] == [];
      assert values + [v] == values[..|values|] + [v] + values[|values|..];
      assert models + [Read(v)] == models[..|values|] + [Read(v)] + models[|values|..];
      Update(keys + [key], values + [v], models + [Read(v)], nodes + Footprint(v));
    }
  }

  lemma PlantedWider(v: Value, model: Json, nodes: set<Node>, more: set<Node>)
    requires Planted(v, model, nodes) && Footprint(v) <= more
    ensures Planted(v, model, more)
  {
  }

  lemma InsertTree(values: seq<Value>, models: seq<Json>, nodes: set<Node>, i: nat, v: Value)
    requires Forest(values, models, nodes) && i <= |values|
    requires Holds(v) && Footprint(v) !! nodes
    ensures Forest(values[..i] + [v] + values[i..], models[..i] + [Read(v)] + models[i..], nodes + Footprint(v))
  {
    var (after, read) := (values[..i] + [v] + values[i..], models[..i] + [Read(v)] + models[i..]);
    forall k | 0 <= k < |after|
      ensures Planted(after[k], read[k], nodes + Footprint(v))
      ensures after[k] == if k < i then values[k] else if k == i then v else values[k - 1]
    {
      if k != i {
        var l := if k < i then k else k - 1;
        assert after[k] == values[l] && read[k] == models[l];
        PlantedWider(values[l], models[l], nodes, nodes + Footprint(v));
      }
    }
  }

  ghost function Nodes(values: seq<Value>): set<Node>
    reads set v | v in values && v.Ref? :: v.node
  {
    if values == [] then {} else Nodes(values[..|values| - 1]) + Footprint(values[|values| - 1])
  }

  lemma {:induction false} NodesAre(values: seq<Value>)
    ensures forall v | v in values :: Footprint(v) <= Nodes(values)
    ensures forall n | n in Nodes(values) :: exists v :: v in values && n in Footprint(v)
  {
    if values != [] {
      var (before, last) := (values[..|values| - 1], values[|values| - 1]);
      NodesAre(before);
      assert values == before + [last];
    }
  }

  lemma RemoveTree(values: seq<Value>, models: seq<Json>, nodes: set<Node>, i: nat)
    requires Forest(values, models, nodes) && i < |values|
    ensures var others := values[..i] + values[i + 1..];
      && Forest(others, models[..i] + models[i + 1..], Nodes(others))
      && Nodes(others) <= nodes && Nodes(others) !! Footprint(values[i])
  {
    var (others, read) := (values[..i] + values[i + 1..], models[..i] + models[i + 1..]);
    NodesAre(others);
    forall k | 0 <= k < |others|
      ensures others[k] == values[if k < i then k else k + 1]
      ensures Planted(others[k], read[k], Nodes(others))
      ensures Footprint(others[k]) !! Footprint(values[i]) && Footprint(others[k]) <= nodes
    {
      var l := if k < i then k else k + 1;
      assert others[k] == values[l] && read[k] == models[l] && others[k] in others;
      PlantedWider(values[l], models[l], nodes, Nodes(others));
    }
  }

  // ----- Between objects and JSON values

  lemma AssembleAll(isList: bool, keys: seq<string>, models: seq<Json>, v: Json)
    requires |keys| == |models|
    requires isList ==> v == Arr(models)
    requires !isList ==> v.Obj? && |v.fields| == |keys|
    requires !isList ==> forall i | 0 <= i < |keys| :: v.fields[i] == Field(keys[i], models[i])
    ensures Assemble(isList, keys, models) == v
  {
    if !isList { assert Assemble(isList, keys, models).fields == v.fields; }
  }

  lemma Branch(node: Node, i: nat)
    requires node.Valid() && i < |node.values|
    ensures var v := node.values[i];
      Holds(v) && Footprint(v) <= node.Repr - {node} && i < |node.models| == |node.keys| && Read(v) == node.models[i]
  {
    assert Planted(node.values[i], node.models[i], node.Repr - {node});
  }

  /** What `json.loads` makes of a JSON value. */
  method Build(v: Json) returns (out: Value)
    ensures Holds(out) && Read(out) == v && fresh(Footprint(out))
    decreases v
  {
    match v {
      case Arr(items) =>
        var node := new Node(true);
        for i := 0 to |items|
          invariant node.Valid() && fresh(node.Repr) && |node.keys| == i && node.models == items[..i]
        {
          var child := Build(items[i]);
          node.Append("", child);
        }
        AssembleAll(true, node.keys, node.models, v);
        out := Ref(node);
      case Obj(fields) =>
        var node := new Node(false);
        for i := 0 to |fields|
          invariant node.Valid() && fresh(node.Repr) && |node.keys| == |node.models| == i
          invariant forall k | 0 <= k < i :: fields[k] == Field(node.keys[k], node.models[k])
        {
          var child := Build(fields[i].value);
          node.Append(fields[i].key, child);
        }
        AssembleAll(false, node.keys, node.models, v);
        out := Ref(node);
      case _ => out := Plain(v);
    }
  }

  /** `copy.deepcopy`. */
  method DeepCopy(v: Value) returns (out: Value)
    requires Holds(v)
    ensures Holds(out) && Read(out) == Read(v) && fresh(Footprint(out))
    decreases Footprint(v)
  {
    if v.Plain? { return v; }
    var source := v.node;
    var node := new Node(source.isList);
    for i := 0 to |source.values|
      invariant source.Valid() && node.Valid() && fresh(node.Repr)
      invariant node.keys == source.keys[..i] && node.models == source.models[..i]
    {
      Branch(source, i);
      var child := DeepCopy(source.values[i]);
      node.Append(source.keys[i], child);
    }
    assert source.keys[..|source.keys|] == source.keys && source.models[..|source.models|] == source.models;
    out := Ref(node);
  }

  /** The JSON value that `json.dumps` and `str` see. */
  method Snapshot(v: Value) returns (json: Json)
    requires Holds(v)
    ensures json == Read(v)
    decreases Footprint(v)
  {
    if v.Plain? { return v.json; }
    var node := v.node;
    var models: seq<Json> := [];
    for i := 0 to |node.values|
      invariant node.Valid() && models == node.models[..i]
    {
      Branch(node, i);
      var child := Snapshot(node.values[i]);
      models := models + [child];
    }
    assert node.models[..|node.models|] == node.models;
    json := Assemble(node.isList, node.keys, models);
  }

  // ----- Slots

  function KeyAt(keys: seq<string>, key: string): (r: Option<nat>)
    ensures r.Some? ==> r.value < |keys| && keys[r.value] == key && forall j | 0 <= j < r.value :: keys[j] != key
    ensures r.None? ==> key !in keys
  {
    if keys == [] then None
    else if keys[0] == key then Some(0)
    else match KeyAt(keys[1..], key) case None => None case Some(i) => Some(i + 1)
  }

  /** The position in a node that a path segment names. */
  function Position(isList: bool, keys: seq<string>, key: string): (r: Option<nat>)
    ensures r.Some? ==> r.value < |keys|
  {
    if !isList then KeyAt(keys, key)
    else if IsDigits(key) && ToNat(key) < |keys| then Some(ToNat(key))
    else None
  }

  /** The slot at a position, and what reading, writing and deleting it comes to. */
  lemma PositionIs(isList: bool, keys: seq<string>, models: seq<Json>, key: string)
    requires |keys| == |models|
    ensures match (Position(isList, keys, key), Locate(Assemble(isList, keys, models), key))
      case (None, None) => true
      case (Some(i), Some(slot)) =>
        && Child(Assemble(isList, keys, models), slot) == models[i]
        && (forall w :: SetChild(Assemble(isList, keys, models), slot, w) == Assemble(isList, keys, models[i := w]))
        && RemoveChild(Assemble(isList, keys, models), slot)
           == Assemble(isList, keys[..i] + keys[i + 1..], models[..i] + models[i + 1..])
      case _ => false
  {
    var container := Assemble(isList, keys, models);
    if !isList {
      match KeyAt(keys, key)
      case None =>
        assert forall j | 0 <= j < |keys| :: container.fields[j].key != key;
      case Some(i) =>
        KeyIndexIs(container.fields, key, i);
        forall w ensures SetChild(container, AtKey(key), w) == Assemble(isList, keys, models[i := w]) {
          assert container.fields[i := Field(key, w)] == Assemble(isList, keys, models[i := w]).fields;
        }
        EntryRemoved(keys, models, i);
    }
  }

  lemma EntryRemoved(keys: seq<string>, models: seq<Json>, i: nat)
    requires |keys| == |models| && i < |keys|
    ensures var all := Assemble(false, keys, models).fields;
      Obj(all[..i] + all[i + 1..]) == Assemble(false, keys[..i] + keys[i + 1..], models[..i] + models[i + 1..])
  {
    var all := Assemble(false, keys, models).fields;
    var rest := Assemble(false, keys[..i] + keys[i + 1..], models[..i] + models[i + 1..]).fields;
    assert forall j | 0 <= j < i :: (all[..i] + all[i + 1..])[j] == rest[j];
    assert forall j | i <= j < |rest| :: (all[..i] + all[i + 1..])[j] == rest[j];
    assert all[..i] + all[i + 1..] == rest;
  }
}
