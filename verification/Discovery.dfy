/** The two walks that discover which dotted paths a sample of records has: the server's
    (`src/databridge/adapters.py`) and the browser's (`src/databridge/static/browser.js`). */
module Discovery {
  import opened Wrappers
  import opened JsonValues
  import opened Paths
  import opened Masking

  /** Depths beyond this one are not visited. */
  const DEPTH_LIMIT: nat := 3

  datatype Info = Info(typeName: string, example: Option<Json>)
  datatype Leaf = Leaf(path: string, value: Json)

  /** `_py_type`. */
  function PyType(v: Json): string {
    match v
    case Bool(_) => "bool"
    case Num(literal) => if '.' in literal || 'e' in literal || 'E' in literal then "float" else "int"
    case Arr(_) => "list"
    case Obj(_) => "object"
    case _ => "string"
  }

  function InfoOf(v: Json): Info {
    Info(PyType(v), if IsContainer(v) then None else Some(v))
  }

  /** The value a walk works on: a text is decoded only when it starts like a container. */
  function View(c: Codec, v: Json): Json {
    if v.Str? && LooksLikeContainer(v.s) then Decode(c, v) else v
  }

  predicate Hidden(key: string) {
    key != [] && key[0] == '_'
  }

  /** `prefix.rstrip(".")`. */
  function TrimDots(t: string): string {
    if t != [] && t[|t| - 1] == '.' then TrimDots(t[..|t| - 1]) else t
  }

  // ----- The server's walk

  /** The leaves in the order in which the walk meets them. */
  function Leaves(c: Codec, obj: Json, prefix: string, depth: nat): seq<Leaf>
    decreases DEPTH_LIMIT + 1 - depth, 1, 0
  {
    if depth > DEPTH_LIMIT then []
    else
      match View(c, obj)
      case Obj(fields) => FieldLeaves(c, fields, prefix, depth)
      case leaf => if TrimDots(prefix) == "" then [] else [Leaf(TrimDots(prefix), leaf)]
  }

  function FieldLeaves(c: Codec, fields: seq<Field>, prefix: string, depth: nat): seq<Leaf>
    requires depth <= DEPTH_LIMIT
    decreases DEPTH_LIMIT + 1 - depth, 0, |fields|
  {
    if fields == [] then []
    else
      (if Hidden(fields[0].key) then [] else Leaves(c, fields[0].value, prefix + fields[0].key + ".", depth + 1))
      + FieldLeaves(c, fields[1..], prefix, depth)
  }

  /** The first leaf met under a path decides what is recorded for it. */
  function Record(schema: map<string, Info>, leaves: seq<Leaf>): map<string, Info>
    decreases leaves
  {
    if leaves == [] then schema
    else
      var leaf := leaves[0];
      Record(if leaf.path in schema then schema else schema[leaf.path := InfoOf(leaf.value)], leaves[1..])
  }

  function RecordsLeaves(c: Codec, records: seq<Json>): seq<Leaf> {
    if records == [] then [] else Leaves(c, records[0], "", 0) + RecordsLeaves(c, records[1..])
  }

  lemma {:induction false} RecordAppend(schema: map<string, Info>, a: seq<Leaf>, b: seq<Leaf>)
    ensures Record(schema, a + b) == Record(Record(schema, a), b)
    decreases a
  {
    if a == [] {
      assert a + b == b;
    } else {
      var leaf := a[0];
      assert (a + b)[1..] == a[1..] + b;
      RecordAppend(if leaf.path in schema then schema else schema[leaf.path := InfoOf(leaf.value)], a[1..], b);
    }
  }

  /** `_infer_schema_nested`, whose inner walk fills one shared dict. */
  class SchemaBuilder {
    const c: Codec
    var schema: map<string, Info>

    constructor (c: Codec)
      ensures this.c == c && schema == map[]
    {
      this.c := c;
      schema := map[];
    }

    method Walk(obj: Json, prefix: string, depth: nat)
      modifies this
      ensures schema == Record(old(schema), Leaves(c, obj, prefix, depth))
      decreases DEPTH_LIMIT + 1 - depth
    {
      if depth > DEPTH_LIMIT { return; }
      var view := View(c, obj);
      if view.Obj? {
        var fields := view.fields;
        for i := 0 to |fields|
          invariant Record(old(schema), FieldLeaves(c, fields, prefix, depth))
                 == Record(schema, FieldLeaves(c, fields[i..], prefix, depth))
        {
          var key := fields[i].key;
          assert fields[i..][1..] == fields[i + 1..];
          if !Hidden(key) {
            RecordAppend(schema, Leaves(c, fields[i].value, prefix + key + ".", depth + 1),
                         FieldLeaves(c, fields[i + 1..], prefix, depth));
            Walk(fields[i].value, prefix + key + ".", depth + 1);
          } else {
            assert FieldLeaves(c, fields[i..], prefix, depth) == FieldLeaves(c, fields[i + 1..], prefix, depth);
          }
        }
      } else {
        var path := TrimDots(prefix);
        if path != "" && path !in schema {
          schema := schema[path := InfoOf(view)];
        }
      }
    }
  }

  method InferSchemaNested(c: Codec, records: seq<Json>) returns (schema: map<string, Info>)
    ensures schema == Record(map[], RecordsLeaves(c, records))
  {
    var builder := new SchemaBuilder(c);
    for i := 0 to |records|
      invariant builder.c == c
      invariant Record(map[], RecordsLeaves(c, records)) == Record(builder.schema, RecordsLeaves(c, records[i..]))
    {
      assert records[i..][1..] == records[i + 1..];
      RecordAppend(builder.schema, Leaves(c, records[i], "", 0), RecordsLeaves(c, records[i + 1..]));
      builder.Walk(records[i], "", 0);
    }
    schema := builder.schema;
  }

  // ----- The browser's walk

  function FlatKeys(c: Codec, obj: Json, prefix: string, depth: nat): set<string>
    decreases DEPTH_LIMIT + 1 - depth, 1, 0
  {
    if depth > DEPTH_LIMIT then {}
    else
      match View(c, obj)
      case Obj(fields) => FieldKeys(c, fields, prefix, depth)
      case _ => if prefix == "" then {} else {prefix}
  }

  function FieldKeys(c: Codec, fields: seq<Field>, prefix: string, depth: nat): set<string>
    requires depth <= DEPTH_LIMIT
    decreases DEPTH_LIMIT + 1 - depth, 0, |fields|
  {
    if fields == [] then {}
    else
      (if Hidden(fields[0].key) then {} else FlatKeys(c, fields[0].value, Extend(prefix, fields[0].key), depth + 1))
      + FieldKeys(c, fields[1..], prefix, depth)
  }

  function Extend(prefix: string, key: string): string {
    if prefix == "" then key else prefix + "." + key
  }

  /** `_flattenKeys`, adding to the caller's set `out`. */
  class KeyCollector {
    const c: Codec
    var out: set<string>

    constructor (c: Codec)
      ensures this.c == c && out == {}
    {
      this.c := c;
      out := {};
    }

    method FlattenKeys(obj: Json, prefix: string, depth: nat)
      modifies this
      ensures out == old(out) + FlatKeys(c, obj, prefix, depth)
      decreases DEPTH_LIMIT + 1 - depth
    {
      if depth > DEPTH_LIMIT { return; }
      var view := View(c, obj);
      if view.Obj? {
        var fields := view.fields;
        for i := 0 to |fields|
          invariant old(out) + FieldKeys(c, fields, prefix, depth) == out + FieldKeys(c, fields[i..], prefix, depth)
        {
          assert fields[i..][1..] == fields[i + 1..];
          if !Hidden(fields[i].key) {
            FlattenKeys(fields[i].value, Extend(prefix, fields[i].key), depth + 1);
          }
        }
      } else if prefix != "" {
        out := out + {prefix};
      }
    }
  }

  // ----- What the walks find

  /** The value at the end of `p` when `p` leads through visible dict keys to something that is
      not a dict. */
  function LeafAt(c: Codec, v: Json, p: seq<string>): Option<Json>
    decreases p
  {
    var view := View(c, v);
    if p == [] then (if view.Obj? then None else Some(view))
    else if view.Obj? && !Hidden(p[0]) && KeyIndex(view.fields, p[0]).Some?
    then LeafAt(c, Child(view, AtKey(p[0])), p[1..])
    else None
  }

  /** The keys met in the first `n` levels are non-empty and hold no dot. */
  ghost predicate PlainKeys(c: Codec, v: Json, n: nat)
    decreases n
  {
    n > 0 && View(c, v).Obj? ==>
      forall f | f in View(c, v).fields :: PlainKey(f.key) && PlainKeys(c, f.value, n - 1)
  }

  predicate PlainKey(key: string) {
    key != "" && '.' !in key
  }

  ghost predicate PlainPath(p: seq<string>) {
    forall k | k in p :: PlainKey(k)
  }

  /** The prefix the server carries for a path, and the one the browser does. */
  function Dotted(p: seq<string>): string {
    if p == [] then "" else Dotted(p[..|p| - 1]) + p[|p| - 1] + "."
  }

  function Joined(p: seq<string>): string {
    if p == [] then "" else Extend(Joined(p[..|p| - 1]), p[|p| - 1])
  }

  lemma DottedSnoc(q: seq<string>, key: string)
    ensures Dotted(q + [key]) == Dotted(q) + key + "." && Joined(q + [key]) == Extend(Joined(q), key)
  {
    assert (q + [key])[..|q|] == q;
  }

  lemma {:induction false} DottedJoined(q: seq<string>)
    requires PlainPath(q)
    ensures TrimDots(Dotted(q)) == Joined(q)
    ensures q != [] ==> Joined(q) == Join(q, '.') && Joined(q) != "" && Dotted(q) == Joined(q) + "."
  {
    hide TrimDots;
    assert TrimDots("") == "" by { TrimNothing(); }
    if q != [] {
      var front, key := q[..|q| - 1], q[|q| - 1];
      assert front + [key] == q && key in q;
      DottedJoined(front);
      if front != [] { JoinSnoc(front, key); }
      assert key[|key| - 1] in key;
      DottedSnoc(front, key);
      assert Dotted(q) == Joined(q) + "." && Joined(q)[|Joined(q)| - 1] == key[|key| - 1];
      TrimOneDot(Joined(q));
    }
  }

  lemma TrimNothing()
    ensures TrimDots("") == ""
  {
  }

  lemma TrimOneDot(t: string)
    requires t != "" && t[|t| - 1] != '.'
    ensures TrimDots(t + ".") == t
  {
    assert (t + ".")[..|t|] == t;
  }

  lemma {:induction false} JoinSnoc(q: seq<string>, key: string)
    requires q != []
    ensures Join(q + [key], '.') == Join(q, '.') + "." + key
  {
    if |q| > 1 {
      assert (q + [key])[1..] == q[1..] + [key];
      JoinSnoc(q[1..], key);
    }
  }

  /** A leaf of the walk below `q` is a visible path from there of at most the allowed length. */
  ghost predicate Found(c: Codec, v: Json, q: seq<string>, p: seq<string>, leaf: Leaf) {
    && |q + p| <= DEPTH_LIMIT
    && q + p != []
    && LeafAt(c, v, p) == Some(leaf.value)
    && leaf.path == Joined(q + p)
  }

  lemma {:induction false} LeavesExact(c: Codec, v: Json, q: seq<string>, leaf: Leaf)
    requires Lawful(c) && Valid(v) && PlainPath(q) && |q| <= DEPTH_LIMIT
    requires PlainKeys(c, v, DEPTH_LIMIT - |q|)
    ensures leaf in Leaves(c, v, Dotted(q), |q|) <==> exists p :: Found(c, v, q, p, leaf)
    decreases DEPTH_LIMIT - |q|
  {
    DottedJoined(q);
    if View(c, v).Obj? {
      var fields := View(c, v).fields;
      InFieldLeaves(c, fields, Dotted(q), |q|, leaf);
      FoundThroughEntry(c, v, q, leaf);
      forall i | 0 <= i < |fields|
        ensures InField(c, fields[i], Dotted(q), |q|, leaf) <==> BelowEntry(c, fields[i], q, leaf)
      {
        FieldExact(c, v, q, leaf, i);
      }
    } else {
      LeafHere(c, v, q, leaf);
    }
  }

  /** A value that is no dict is the one leaf below itself. */
  lemma LeafHere(c: Codec, v: Json, q: seq<string>, leaf: Leaf)
    requires PlainPath(q) && |q| <= DEPTH_LIMIT && !View(c, v).Obj?
    ensures leaf in Leaves(c, v, Dotted(q), |q|) <==> exists p :: Found(c, v, q, p, leaf)
  {
    DottedJoined(q);
    assert q + [] == q;
    if leaf in Leaves(c, v, Dotted(q), |q|) { assert Found(c, v, q, [], leaf); }
  }

  ghost predicate BelowEntry(c: Codec, f: Field, q: seq<string>, leaf: Leaf) {
    !Hidden(f.key) && exists p :: Found(c, f.value, q + [f.key], p, leaf)
  }

  lemma FoundEnters(c: Codec, v: Json, q: seq<string>, p: seq<string>, leaf: Leaf)
    requires View(c, v).Obj? && Found(c, v, q, p, leaf)
    ensures p != [] && KeyIndex(View(c, v).fields, p[0]).Some?
  {
  }

  lemma FoundIsBelow(c: Codec, v: Json, q: seq<string>, p: seq<string>, leaf: Leaf)
    requires Lawful(c) && Valid(v) && View(c, v).Obj? && Found(c, v, q, p, leaf)
    ensures exists i :: 0 <= i < |View(c, v).fields| && BelowEntry(c, View(c, v).fields[i], q, leaf)
  {
    hide Found, View;
    FoundEnters(c, v, q, p, leaf);
    var i := KeyIndex(View(c, v).fields, p[0]).value;
    assert p == [p[0]] + p[1..];
    FoundBelow(c, v, q, p[1..], leaf, i);
    assert BelowEntry(c, View(c, v).fields[i], q, leaf);
  }

  /** A leaf is found in a dict iff it is found below one of its visible entries. */
  lemma FoundThroughEntry(c: Codec, v: Json, q: seq<string>, leaf: Leaf)
    requires Lawful(c) && Valid(v) && View(c, v).Obj?
    ensures (exists p :: Found(c, v, q, p, leaf)) <==>
            exists i | 0 <= i < |View(c, v).fields| :: BelowEntry(c, View(c, v).fields[i], q, leaf)
  {
    hide Found, View;
    var fields := View(c, v).fields;
    if p :| Found(c, v, q, p, leaf) { FoundIsBelow(c, v, q, p, leaf); }
    if i :| 0 <= i < |fields| && BelowEntry(c, fields[i], q, leaf) {
      var p :| Found(c, fields[i].value, q + [fields[i].key], p, leaf);
      FoundBelow(c, v, q, p, leaf, i);
    }
  }

  predicate InField(c: Codec, f: Field, prefix: string, depth: nat, leaf: Leaf) {
    !Hidden(f.key) && leaf in Leaves(c, f.value, prefix + f.key + ".", depth + 1)
  }

  lemma {:induction false} InFieldLeaves(c: Codec, fields: seq<Field>, prefix: string, depth: nat, leaf: Leaf)
    requires depth <= DEPTH_LIMIT
    ensures leaf in FieldLeaves(c, fields, prefix, depth) <==>
            exists i | 0 <= i < |fields| :: InField(c, fields[i], prefix, depth, leaf)
  {
    if fields != [] {
      var tail := fields[1..];
      InFieldLeaves(c, tail, prefix, depth, leaf);
      if i :| 0 <= i < |fields| && InField(c, fields[i], prefix, depth, leaf) {
        if i > 0 { assert InField(c, tail[i - 1], prefix, depth, leaf); }
      }
      if i :| 0 <= i < |tail| && InField(c, tail[i], prefix, depth, leaf) {
        assert InField(c, fields[i + 1], prefix, depth, leaf);
      }
      if InField(c, fields[0], prefix, depth, leaf) {}
    }
  }

  /** A leaf below one entry of a dict is a leaf of the dict, one step further down. */
  lemma FoundBelow(c: Codec, v: Json, q: seq<string>, p: seq<string>, leaf: Leaf, i: nat)
    requires Lawful(c) && Valid(v) && View(c, v).Obj? && i < |View(c, v).fields|
    ensures var f := View(c, v).fields[i];
      Found(c, v, q, [f.key] + p, leaf) <==> !Hidden(f.key) && Found(c, f.value, q + [f.key], p, leaf)
  {
    var f := View(c, v).fields[i];
    DecodeValid(c, v);
    KeyIndexIs(View(c, v).fields, f.key, i);
    assert q + ([f.key] + p) == (q + [f.key]) + p;
    assert ([f.key] + p)[1..] == p;
  }

  lemma EntryPlain(c: Codec, v: Json, n: nat, i: nat)
    requires Lawful(c) && Valid(v) && View(c, v).Obj? && i < |View(c, v).fields| && PlainKeys(c, v, n)
    ensures var f := View(c, v).fields[i];
      Valid(f.value) && (n > 0 ==> PlainKey(f.key) && PlainKeys(c, f.value, n - 1))
  {
    DecodeValid(c, v);
    assert View(c, v).fields[i] in View(c, v).fields;
  }

  lemma FieldTooDeep(c: Codec, f: Field, q: seq<string>, leaf: Leaf)
    requires |q| == DEPTH_LIMIT
    ensures !InField(c, f, Dotted(q), |q|, leaf) && !BelowEntry(c, f, q, leaf)
  {
    hide Dotted, Joined, LeafAt;
  }

  /** The leaves below one entry of a dict. */
  lemma {:induction false} FieldExact(c: Codec, v: Json, q: seq<string>, leaf: Leaf, i: nat)
    requires Lawful(c) && Valid(v) && PlainPath(q) && |q| <= DEPTH_LIMIT
    requires PlainKeys(c, v, DEPTH_LIMIT - |q|)
    requires View(c, v).Obj? && i < |View(c, v).fields|
    ensures var f := View(c, v).fields[i];
      InField(c, f, Dotted(q), |q|, leaf) <==> BelowEntry(c, f, q, leaf)
    decreases DEPTH_LIMIT - |q|, 0
  {
    EntryPlain(c, v, DEPTH_LIMIT - |q|, i);
    hide View, Leaves, Found, Dotted, PlainKeys, Valid, Lawful, InField, BelowEntry;
    var f := View(c, v).fields[i];
    if |q| == DEPTH_LIMIT {
      FieldTooDeep(c, f, q, leaf);
    } else {
      PlainSnoc(q, f.key);
      hide PlainPath, PlainKey;
      LeavesExact(c, f.value, q + [f.key], leaf);
      EntryExact(c, f, q, leaf);
    }
  }

  lemma EntryExact(c: Codec, f: Field, q: seq<string>, leaf: Leaf)
    requires var q' := q + [f.key];
      leaf in Leaves(c, f.value, Dotted(q'), |q'|) <==> exists p :: Found(c, f.value, q', p, leaf)
    ensures InField(c, f, Dotted(q), |q|, leaf) <==> BelowEntry(c, f, q, leaf)
  {
    hide Leaves, Found, Dotted;
    DottedSnoc(q, f.key);
  }

  lemma PlainSnoc(q: seq<string>, key: string)
    requires PlainPath(q) && PlainKey(key)
    ensures PlainPath(q + [key])
  {
    hide PlainKey;
  }

  function PathsOf(leaves: seq<Leaf>): set<string> {
    set leaf | leaf in leaves :: leaf.path
  }

  lemma PathsOfAppend(a: seq<Leaf>, b: seq<Leaf>)
    ensures PathsOf(a + b) == PathsOf(a) + PathsOf(b)
  {
  }

  /** The browser finds the paths that the server finds. */
  lemma {:induction false} SamePaths(c: Codec, v: Json, q: seq<string>)
    requires PlainPath(q) && |q| <= DEPTH_LIMIT + 1
    requires |q| <= DEPTH_LIMIT ==> PlainKeys(c, v, DEPTH_LIMIT - |q|)
    ensures FlatKeys(c, v, Joined(q), |q|) == PathsOf(Leaves(c, v, Dotted(q), |q|))
    decreases DEPTH_LIMIT + 1 - |q|, 1, 0
  {
    DottedJoined(q);
    hide FieldKeys, FieldLeaves, Dotted, Joined, View;
    if |q| <= DEPTH_LIMIT && View(c, v).Obj? {
      var fields := View(c, v).fields;
      SamePathsOfFields(c, fields, q);
    }
  }

  /** Both walks take the first field and then the rest. */
  lemma FirstField(c: Codec, fields: seq<Field>, q: seq<string>)
    requires fields != [] && |q| <= DEPTH_LIMIT
    ensures var f := fields[0];
      var q' := q + [f.key];
      && PathsOf(FieldLeaves(c, fields, Dotted(q), |q|))
         == (if Hidden(f.key) then {} else PathsOf(Leaves(c, f.value, Dotted(q'), |q'|)))
            + PathsOf(FieldLeaves(c, fields[1..], Dotted(q), |q|))
      && FieldKeys(c, fields, Joined(q), |q|)
         == (if Hidden(f.key) then {} else FlatKeys(c, f.value, Joined(q'), |q'|))
            + FieldKeys(c, fields[1..], Joined(q), |q|)
  {
    hide Leaves, FlatKeys, Dotted, Joined;
    var f := fields[0];
    DottedSnoc(q, f.key);
    var first := if Hidden(f.key) then [] else Leaves(c, f.value, Dotted(q) + f.key + ".", |q| + 1);
    assert FieldLeaves(c, fields, Dotted(q), |q|) == first + FieldLeaves(c, fields[1..], Dotted(q), |q|);
    PathsOfAppend(first, FieldLeaves(c, fields[1..], Dotted(q), |q|));
    assert Hidden(f.key) ==> PathsOf(first) == {};
  }

  lemma NoFields(c: Codec, q: seq<string>)
    requires |q| <= DEPTH_LIMIT
    ensures FieldKeys(c, [], Joined(q), |q|) == PathsOf(FieldLeaves(c, [], Dotted(q), |q|))
  {
  }

  /** At the depth limit nothing below a field is visited. */
  lemma TooDeep(c: Codec, v: Json, q: seq<string>)
    requires |q| > DEPTH_LIMIT
    ensures FlatKeys(c, v, Joined(q), |q|) == PathsOf(Leaves(c, v, Dotted(q), |q|))
  {
  }

  lemma {:induction false} SamePathsOfFields(c: Codec, fields: seq<Field>, q: seq<string>)
    requires PlainPath(q) && |q| <= DEPTH_LIMIT
    requires |q| < DEPTH_LIMIT ==>
      forall f | f in fields :: PlainKey(f.key) && PlainKeys(c, f.value, DEPTH_LIMIT - |q| - 1)
    ensures FieldKeys(c, fields, Joined(q), |q|) == PathsOf(FieldLeaves(c, fields, Dotted(q), |q|))
    decreases DEPTH_LIMIT + 1 - |q|, 0, |fields|
  {
    hide FieldKeys, FieldLeaves, FlatKeys, Leaves, PathsOf, Dotted, Joined, PlainKeys;
    if fields == [] {
      NoFields(c, q);
    } else {
      var f := fields[0];
      var next := q + [f.key];
      FirstField(c, fields, q);
      SamePathsOfFields(c, fields[1..], q);
      assert f in fields;
      if |q| == DEPTH_LIMIT {
        TooDeep(c, f.value, next);
      } else if !Hidden(f.key) {
        SamePaths(c, f.value, next);
      }
    }
  }

  // ----- The schema of a sample

  /** `p` is a visible path of allowed length to a leaf of the record. */
  predicate HasLeaf(c: Codec, record: Json, p: seq<string>) {
    1 <= |p| <= DEPTH_LIMIT && LeafAt(c, record, p).Some?
  }

  ghost predicate PlainSample(c: Codec, records: seq<Json>) {
    forall r | r in records :: Valid(r) && PlainKeys(c, r, DEPTH_LIMIT)
  }

  /** The first leaf recorded under a path. */
  function FirstLeaf(leaves: seq<Leaf>, path: string): (r: Option<Json>)
    ensures r.Some? <==> path in PathsOf(leaves)
    ensures r.Some? ==> Leaf(path, r.value) in leaves
  {
    if leaves == [] then None
    else if leaves[0].path == path then Some(leaves[0].value)
    else FirstLeaf(leaves[1..], path)
  }

  lemma {:induction false} RecordKeeps(schema: map<string, Info>, leaves: seq<Leaf>, path: string)
    ensures path in Record(schema, leaves) <==> path in schema || FirstLeaf(leaves, path).Some?
    ensures path in schema ==> Record(schema, leaves)[path] == schema[path]
    ensures path !in schema && FirstLeaf(leaves, path).Some? ==>
      Record(schema, leaves)[path] == InfoOf(FirstLeaf(leaves, path).value)
    decreases leaves
  {
    if leaves != [] {
      var leaf := leaves[0];
      RecordKeeps(if leaf.path in schema then schema else schema[leaf.path := InfoOf(leaf.value)], leaves[1..], path);
    }
  }

  lemma {:induction false} FirstLeafAppend(a: seq<Leaf>, b: seq<Leaf>, path: string)
    ensures FirstLeaf(a + b, path) == if FirstLeaf(a, path).Some? then FirstLeaf(a, path) else FirstLeaf(b, path)
  {
    if a == [] {
      assert a + b == b;
    } else {
      assert (a + b)[1..] == a[1..] + b;
      FirstLeafAppend(a[1..], b, path);
    }
  }

  /** The keys of a leaf path are plain. */
  lemma {:induction false} LeafPathPlain(c: Codec, v: Json, p: seq<string>, n: nat)
    requires LeafAt(c, v, p).Some? && |p| <= n && PlainKeys(c, v, n)
    ensures PlainPath(p)
    decreases p
  {
    if p != [] {
      var fields := View(c, v).fields;
      var f := fields[KeyIndex(fields, p[0]).value];
      assert f in fields && f.key == p[0];
      LeafPathPlain(c, f.value, p[1..], n - 1);
      assert p == [p[0]] + p[1..];
    }
  }

  /** In one record, the walk emits exactly the joined visible leaf paths, with their leaves. */
  lemma RecordLeaves(c: Codec, record: Json, leaf: Leaf)
    requires Lawful(c) && Valid(record) && PlainKeys(c, record, DEPTH_LIMIT)
    ensures var p := Split(leaf.path, '.');
      leaf in Leaves(c, record, "", 0) <==> HasLeaf(c, record, p) && LeafAt(c, record, p) == Some(leaf.value)
  {
    var p := Split(leaf.path, '.');
    LeavesExact(c, record, [], leaf);
    if q :| Found(c, record, [], q, leaf) {
      assert [] + q == q;
      LeafPathPlain(c, record, q, DEPTH_LIMIT);
      DottedJoined(q);
      SplitJoin(q, '.');
    }
    if HasLeaf(c, record, p) && LeafAt(c, record, p) == Some(leaf.value) {
      LeafPathPlain(c, record, p, DEPTH_LIMIT);
      assert [] + p == p;
      DottedJoined(p);
      JoinSplit(leaf.path, '.');
      assert Found(c, record, [], p, leaf);
    }
  }

  lemma FirstLeafOfRecord(c: Codec, record: Json, path: string)
    requires Lawful(c) && Valid(record) && PlainKeys(c, record, DEPTH_LIMIT)
    ensures var p := Split(path, '.');
      FirstLeaf(Leaves(c, record, "", 0), path) == if HasLeaf(c, record, p) then LeafAt(c, record, p) else None
  {
    var p := Split(path, '.');
    var first := FirstLeaf(Leaves(c, record, "", 0), path);
    if first.Some? { RecordLeaves(c, record, Leaf(path, first.value)); }
    if HasLeaf(c, record, p) { RecordLeaves(c, record, Leaf(path, LeafAt(c, record, p).value)); }
  }

  lemma {:induction false} JoinSplit(text: string, sep: char)
    ensures Join(Split(text, sep), sep) == text
  {
    if text != [] {
      JoinSplit(text[1..], sep);
      var rest := Split(text[1..], sep);
      assert text == [text[0]] + text[1..];
      if text[0] == sep {
        assert ([""] + rest)[1..] == rest;
      } else {
        assert ([[text[0]] + rest[0]] + rest[1..])[1..] == rest[1..];
      }
    }
  }

  /** The first record of the sample in which `path` is a visible leaf path. */
  function FirstWith(c: Codec, records: seq<Json>, p: seq<string>): (r: Option<nat>)
    ensures r.Some? ==> r.value < |records| && HasLeaf(c, records[r.value], p)
    ensures forall j | 0 <= j < (if r.Some? then r.value else |records|) :: !HasLeaf(c, records[j], p)
  {
    if records == [] then None
    else if HasLeaf(c, records[0], p) then Some(0)
    else match FirstWith(c, records[1..], p) case None => None case Some(i) => Some(i + 1)
  }

  lemma {:induction false} FirstLeafOfSample(c: Codec, records: seq<Json>, path: string)
    requires Lawful(c) && PlainSample(c, records)
    ensures var p := Split(path, '.');
      var i := FirstWith(c, records, p);
      FirstLeaf(RecordsLeaves(c, records), path) == if i.Some? then LeafAt(c, records[i.value], p) else None
  {
    if records != [] {
      assert records[0] in records && forall r | r in records[1..] :: r in records;
      FirstLeafOfRecord(c, records[0], path);
      FirstLeafAppend(Leaves(c, records[0], "", 0), RecordsLeaves(c, records[1..]), path);
      FirstLeafOfSample(c, records[1..], path);
    }
  }

  /** The inferred schema has exactly the visible leaf paths of the records, each described by
      the first record that has it. */
  lemma SchemaExact(c: Codec, records: seq<Json>, path: string)
    requires Lawful(c) && PlainSample(c, records)
    ensures var schema := Record(map[], RecordsLeaves(c, records));
      var p := Split(path, '.');
      var i := FirstWith(c, records, p);
      && (path in schema <==> i.Some?)
      && (i.Some? ==> schema[path] == InfoOf(LeafAt(c, records[i.value], p).value))
  {
    RecordKeeps(map[], RecordsLeaves(c, records), path);
    FirstLeafOfSample(c, records, path);
  }

  predicate KeySlots(slots: seq<Slot>, p: seq<string>) {
    |slots| == |p| && forall i | 0 <= i < |p| :: slots[i] == AtKey(p[i])
  }

  /** The path leads through dicts alone, native or in text, by its own segments. */
  predicate ThroughKeys(c: Codec, v: Json, p: seq<string>) {
    var slots := Location(c, v, p);
    slots.Some? && KeySlots(slots.value, p)
  }

  lemma KeySlotsBehind(slots: seq<Slot>, p: seq<string>)
    requires p != []
    ensures KeySlots([AtKey(p[0])] + slots, p) <==> KeySlots(slots, p[1..])
  {
    var all := [AtKey(p[0])] + slots;
    assert forall i | 0 <= i < |slots| :: all[i + 1] == slots[i];
    assert forall i | 0 <= i < |p| - 1 :: p[i + 1] == p[1..][i];
    if KeySlots(all, p) {
      forall i | 0 <= i < |p[1..]| ensures slots[i] == AtKey(p[1..][i]) { assert all[i + 1] == AtKey(p[i + 1]); }
    }
  }

  /** What the walks count as a leaf, in terms of the read walk. */
  lemma {:induction false} LeafIsRead(c: Codec, v: Json, p: seq<string>)
    requires Lawful(c)
    ensures LeafAt(c, v, p).Some? <==>
      && (forall k | k in p :: k == "" || k[0] != '_')
      && ThroughKeys(c, v, p)
      && !Decode(c, Resolve(c, v, p).value).Obj?
    decreases p
  {
    var node := Decode(c, v);
    DictsAgree(c, v);
    hide View, Decode, Lawful, KeySlots;
    if p != [] && node.Obj? && Locate(node, p[0]).Some? {
      LeafIsRead(c, Child(node, AtKey(p[0])), p[1..]);
      KeysBehind(c, v, p);
      assert p == [p[0]] + p[1..];
    }
  }

  /** For dicts, decoding and the guarded decoding of the discovery walks agree. */
  lemma DictsAgree(c: Codec, v: Json)
    requires Lawful(c)
    ensures View(c, v).Obj? == Decode(c, v).Obj?
    ensures View(c, v).Obj? ==> View(c, v) == Decode(c, v)
  {
  }

  lemma KeysBehind(c: Codec, v: Json, p: seq<string>)
    requires p != [] && Decode(c, v).Obj? && Locate(Decode(c, v), p[0]).Some?
    ensures var child := Child(Decode(c, v), AtKey(p[0]));
      && (ThroughKeys(c, v, p) <==> ThroughKeys(c, child, p[1..]))
      && Resolve(c, v, p) == Resolve(c, child, p[1..])
  {
    hide KeySlots;
    var slots := Location(c, Child(Decode(c, v), AtKey(p[0])), p[1..]);
    if slots.Some? { KeySlotsBehind(slots.value, p); }
  }

  /** A path is in the schema exactly when it has one to three segments, none of which starts with an
      underscore, that lead through dict keys of some record to a value that is no dict. */
  lemma SchemaPaths(c: Codec, records: seq<Json>, path: string)
    requires Lawful(c) && PlainSample(c, records)
    ensures var p := Split(path, '.');
      path in Record(map[], RecordsLeaves(c, records)) <==>
      && 1 <= |p| <= 3 && (forall k | k in p :: k == "" || k[0] != '_')
      && exists i :: 0 <= i < |records| && ThroughKeys(c, records[i], p) && !Decode(c, Resolve(c, records[i], p).value).Obj?
  {
    var p := Split(path, '.');
    SchemaExact(c, records, path);
    forall i | 0 <= i < |records|
      ensures HasLeaf(c, records[i], p) <==>
        && 1 <= |p| <= 3 && (forall k | k in p :: k == "" || k[0] != '_')
        && ThroughKeys(c, records[i], p) && !Decode(c, Resolve(c, records[i], p).value).Obj?
    {
      LeafIsRead(c, records[i], p);
    }
  }

  /** How a leaf is described: its type by name, and itself as the example unless it is a list. */
  lemma SchemaDescribes(c: Codec, records: seq<Json>, path: string)
    requires Lawful(c) && PlainSample(c, records)
    requires path in Record(map[], RecordsLeaves(c, records))
    ensures var p := Split(path, '.');
      var i := FirstWith(c, records, p);
      && i.Some?
      && var info := Record(map[], RecordsLeaves(c, records))[path];
      match LeafAt(c, records[i.value], p).value
      case Null => info == Info("string", Some(Null))
      case Str(t) => info == Info("string", Some(Str(t)))
      case Bool(b) => info == Info("bool", Some(Bool(b)))
      case Num(l) => info == Info(if '.' in l || 'e' in l || 'E' in l then "float" else "int", Some(Num(l)))
      case Arr(_) => info == Info("list", None)
      case Obj(_) => false
  {
    SchemaExact(c, records, path);
    var p := Split(path, '.');
    LeafIsNoDict(c, records[FirstWith(c, records, p).value], p);
  }

  lemma {:induction false} LeafIsNoDict(c: Codec, v: Json, p: seq<string>)
    requires LeafAt(c, v, p).Some?
    ensures !LeafAt(c, v, p).value.Obj?
    decreases p
  {
    if p != [] { LeafIsNoDict(c, Child(View(c, v), AtKey(p[0])), p[1..]); }
  }

  // ----- Discovery, reading and masking fit together

  /** A visible leaf path resolves, to the leaf or its text, through dict keys alone. */
  lemma {:induction false} LeafResolves(c: Codec, v: Json, p: seq<string>)
    requires Lawful(c) && LeafAt(c, v, p).Some?
    ensures Resolve(c, v, p).Some? && View(c, Resolve(c, v, p).value) == LeafAt(c, v, p).value
    ensures Keyed(c, v, p)
    decreases p
  {
    if p != [] {
      assert DecodeAndIndex(c, v, p[0]) == (View(c, v), Some(AtKey(p[0])));
      LeafResolves(c, Child(View(c, v), AtKey(p[0])), p[1..]);
    }
  }

  /** Every path of an inferred schema resolves in the record that contributed it, to a value the
      schema describes, and a rule made from that path does there what its action says. */
  lemma DiscoverThenMask(c: Codec, records: seq<Json>, path: string, action: Action)
    requires Lawful(c) && PlainSample(c, records)
    requires path in Record(map[], RecordsLeaves(c, records))
    ensures var rule := Rule(path, action);
      var i := FirstWith(c, records, rule.Parts());
      && i.Some?
      && var found := Resolve(c, records[i.value], rule.Parts());
      && found.Some?
      && Record(map[], RecordsLeaves(c, records))[path] == InfoOf(View(c, found.value))
      && Resolve(c, ApplyRule(c, records[i.value], rule), rule.Parts()) == Written(c, action, found.value)
  {
    var p := Split(path, '.');
    SchemaExact(c, records, path);
    var record := records[FirstWith(c, records, p).value];
    LeafResolves(c, record, p);
    KeyedMovesNothing(c, record, p);
    ReadAfterWrite(c, record, p, action, p);
  }

  /** Rules made from visible leaf paths of a record, in any number and order, with drops among them,
      do not defeat each other in it. */
  lemma DiscoveredRulesHold(c: Codec, record: Json, rules: seq<Rule>)
    requires Lawful(c) && Valid(record)
    requires forall k | 0 <= k < |rules| :: LeafAt(c, record, rules[k].Parts()).Some?
    ensures DropsMoveNothing(c, record, rules)
    ensures forall j | 0 <= j < |rules| :: Covered(c, record, rules, j, rules[j].Parts())
  {
    forall k | 0 <= k < |rules| ensures Keyed(c, record, rules[k].Parts()) {
      LeafResolves(c, record, rules[k].Parts());
    }
    KeyedDropsDefeatNothing(c, record, rules);
  }

  lemma {:induction false} RecordKeys(schema: map<string, Info>, leaves: seq<Leaf>)
    ensures Record(schema, leaves).Keys == schema.Keys + PathsOf(leaves)
  {
    forall path ensures path in Record(schema, leaves) <==> path in schema.Keys + PathsOf(leaves) {
      RecordKeeps(schema, leaves, path);
    }
  }

  /** One result of a trial extraction; the preview is the text of the value, possibly cut short. */
  datatype Preview = Preview(resolved: bool, valuePreview: string)

  /** The value of a preview that resolved and is whole. */
  function Parsed(c: Codec, r: Preview): Option<Json> {
    if r.resolved && r.valuePreview != "" then c.loads(r.valuePreview) else None
  }

  function Shown(c: Codec, results: seq<Preview>): seq<Json> {
    if results == [] then []
    else (match Parsed(c, results[0]) case Some(v) => [v] case None => []) + Shown(c, results[1..])
  }

  /** A value is shown exactly when some result resolved and its preview, not empty, parses to it. */
  lemma {:induction false} ShownExactly(c: Codec, results: seq<Preview>, v: Json)
    ensures v in Shown(c, results) <==>
      exists r :: r in results && r.resolved && r.valuePreview != "" && c.loads(r.valuePreview) == Some(v)
  {
    if results != [] {
      ShownExactly(c, results[1..], v);
      assert forall r :: r in results <==> r == results[0] || r in results[1..];
    }
  }

  /** The server's paths for the values shown. */
  function ShownPaths(c: Codec, results: seq<Preview>): set<string> {
    PathsOf(RecordsLeaves(c, Shown(c, results)))
  }

  lemma ShownOne(c: Codec, results: seq<Preview>)
    requires results != [] && PlainSample(c, Shown(c, results))
    ensures PlainSample(c, Shown(c, results[1..]))
    ensures ShownPaths(c, results)
         == (match Parsed(c, results[0]) case Some(v) => FlatKeys(c, v, "", 0) case None => {}) + ShownPaths(c, results[1..])
  {
    var (all, rest) := (Shown(c, results), Shown(c, results[1..]));
    match Parsed(c, results[0])
    case None => assert all == rest;
    case Some(v) =>
      assert all == [v] + rest && all[0] in all && all[1..] == rest;
      PathsOfAppend(Leaves(c, v, "", 0), RecordsLeaves(c, rest));
      SamePaths(c, v, []);
  }

  /** `_deriveExtractedSchemaFields`: the browser's fields, before sorting, are the keys of the schema
      that the server would infer from the same values; None when there are none. */
  method DeriveExtractedFields(c: Codec, results: seq<Preview>) returns (fields: Option<set<string>>)
    requires PlainSample(c, Shown(c, results))
    ensures var keys := Record(map[], RecordsLeaves(c, Shown(c, results))).Keys;
      fields == if keys == {} then None else Some(keys)
  {
    hide FlatKeys, ShownPaths, Shown, PlainSample;
    var collector := new KeyCollector(c);
    for i := 0 to |results|
      invariant collector.c == c && PlainSample(c, Shown(c, results[i..]))
      invariant ShownPaths(c, results) == collector.out + ShownPaths(c, results[i..])
    {
      ShownOne(c, results[i..]);
      assert results[i..][1..] == results[i + 1..];
      match Parsed(c, results[i]) {
        case None =>
        case Some(v) => collector.FlattenKeys(v, "", 0);
      }
    }
    AllShown(c, results, collector.out);
    return if collector.out == {} then None else Some(collector.out);
  }

  lemma AllShown(c: Codec, results: seq<Preview>, keys: set<string>)
    requires ShownPaths(c, results) == keys + ShownPaths(c, results[|results|..])
    ensures keys == Record(map[], RecordsLeaves(c, Shown(c, results))).Keys
  {
    RecordKeys(map[], RecordsLeaves(c, Shown(c, results)));
  }
}
