/** References inside an OpenAPI document: the lookup of a JSON pointer and the chase of `$ref`
    (`client-side-relay/swagger-to-config.py`), with the escaping of section 3 of RFC 6901. */
module SpecRefs {
  import opened Wrappers
  import opened JsonValues
  import opened Paths

  const EMPTY: Json := Obj([])

  // ----- Pointer segments

  /** `text.replace(two, by)` for a text of two characters. */
  function Replace(text: string, two: string, sub: string): string
    requires |two| == 2
  {
    if |text| < 2 then text
    else if text[..2] == two then sub + Replace(text[2..], two, sub)
    else [text[0]] + Replace(text[1..], two, sub)
  }

  function Unescape(part: string): string {
    Replace(Replace(part, "~1", "/"), "~0", "~")
  }

  /** Section 3 of RFC 6901. */
  function Escape(key: string): string {
    if key == [] then ""
    else (if key[0] == '~' then "~0" else if key[0] == '/' then "~1" else [key[0]]) + Escape(key[1..])
  }

  /** What stays escaped once "~1" is undone. */
  function EscapeTildes(key: string): string {
    if key == [] then "" else (if key[0] == '~' then "~0" else [key[0]]) + EscapeTildes(key[1..])
  }

  lemma ReplaceOther(ch: char, text: string, two: string, sub: string)
    requires |two| == 2 && ch != two[0]
    ensures Replace([ch] + text, two, sub) == [ch] + Replace(text, two, sub)
  {
    assert ([ch] + text)[1..] == text;
    assert |text| > 0 ==> ([ch] + text)[..2][0] == ch;
  }

  lemma ReplaceHit(text: string, two: string, sub: string)
    requires |two| == 2
    ensures Replace(two + text, two, sub) == sub + Replace(text, two, sub)
  {
    assert (two + text)[..2] == two && (two + text)[2..] == text;
  }

  lemma ReplaceMiss(pair: string, text: string, two: string, sub: string)
    requires |two| == 2 && |pair| == 2 && pair != two && pair[1] != two[0]
    ensures Replace(pair + text, two, sub) == pair + Replace(text, two, sub)
  {
    assert (pair + text)[..2] == pair && (pair + text)[1..] == [pair[1]] + text;
    ReplaceOther(pair[1], text, two, sub);
    assert [pair[0]] + ([pair[1]] + Replace(text, two, sub)) == pair + Replace(text, two, sub);
  }

  lemma {:induction false} UndoSlashes(key: string)
    ensures Replace(Escape(key), "~1", "/") == EscapeTildes(key)
  {
    if key != [] {
      UndoSlashes(key[1..]);
      var rest := Escape(key[1..]);
      if key[0] == '~' {
        ReplaceMiss("~0", rest, "~1", "/");
      } else if key[0] == '/' {
        ReplaceHit(rest, "~1", "/");
      } else {
        ReplaceOther(key[0], rest, "~1", "/");
      }
    }
  }

  lemma {:induction false} UndoTildes(key: string)
    ensures Replace(EscapeTildes(key), "~0", "~") == key
  {
    if key != [] {
      UndoTildes(key[1..]);
      var rest := EscapeTildes(key[1..]);
      if key[0] == '~' {
        ReplaceHit(rest, "~0", "~");
      } else {
        ReplaceOther(key[0], rest, "~0", "~");
      }
      assert [key[0]] + key[1..] == key;
    }
  }

  /** The two replacements, in the order of the code, undo the escaping of any key. */
  lemma UnescapeEscape(key: string)
    ensures Unescape(Escape(key)) == key
  {
    UndoSlashes(key);
    UndoTildes(key);
  }

  lemma {:induction false} EscapeHasNoSlash(key: string)
    ensures '/' !in Escape(key)
  {
    if key != [] { EscapeHasNoSlash(key[1..]); }
  }

  // ----- Lookup

  function Walk(node: Json, parts: seq<string>): Json
    decreases parts
  {
    if parts == [] then node
    else if node.Obj? then Walk(Get(node, Unescape(parts[0]), EMPTY), parts[1..])
    else EMPTY
  }

  function Lookup(spec: Json, ref: string): (r: Json)
    ensures r.Obj?
  {
    if !("#/" <= ref) then EMPTY
    else
      var node := Walk(spec, Split(ref[2..], '/'));
      if node.Obj? then node else EMPTY
  }

  method ResolveRef(spec: Json, ref: string) returns (node: Json)
    ensures node == Lookup(spec, ref)
  {
    if !("#/" <= ref) { return EMPTY; }
    var parts := Split(ref[2..], '/');
    var current := spec;
    for i := 0 to |parts|
      invariant Walk(spec, parts) == Walk(current, parts[i..])
    {
      if !current.Obj? { return EMPTY; }
      current := Get(current, Unescape(parts[i]), EMPTY);
    }
    return if current.Obj? then current else EMPTY;
  }

  function EscapeAll(keys: seq<string>): (parts: seq<string>)
    ensures |parts| == |keys|
  {
    if keys == [] then [] else [Escape(keys[0])] + EscapeAll(keys[1..])
  }

  function Pointer(keys: seq<string>): string
    requires keys != []
  {
    "#/" + Join(EscapeAll(keys), '/')
  }

  lemma {:induction false} EscapedParts(keys: seq<string>)
    ensures forall p | p in EscapeAll(keys) :: '/' !in p
  {
    if keys != [] {
      EscapeHasNoSlash(keys[0]);
      EscapedParts(keys[1..]);
    }
  }

  lemma {:induction false} WalkEmpty(parts: seq<string>)
    ensures Walk(EMPTY, parts) == EMPTY
  {
    if parts != [] { WalkEmpty(parts[1..]); }
  }

  lemma {:induction false} WalkIsAtKeys(node: Json, keys: seq<string>)
    ensures Walk(node, EscapeAll(keys)) == match AtKeys(node, keys) case Some(v) => v case None => EMPTY
    decreases keys
  {
    if keys != [] {
      var parts := EscapeAll(keys);
      assert parts[0] == Escape(keys[0]) && parts[1..] == EscapeAll(keys[1..]);
      UnescapeEscape(keys[0]);
      if node.Obj? {
        WalkIsAtKeys(Get(node, keys[0], EMPTY), keys[1..]);
        if KeyIndex(node.fields, keys[0]).None? { WalkEmpty(parts[1..]); }
      }
    }
  }

  /** The pointer written for a path of keys leads to the dict under that path, and to an empty
      dict when there is none. */
  lemma PointerLeadsBack(spec: Json, keys: seq<string>)
    requires keys != []
    ensures Lookup(spec, Pointer(keys)) ==
      match AtKeys(spec, keys) case Some(v) => (if v.Obj? then v else EMPTY) case None => EMPTY
  {
    var parts := EscapeAll(keys);
    EscapedParts(keys);
    SplitJoin(parts, '/');
    assert Pointer(keys)[2..] == Join(parts, '/');
    WalkIsAtKeys(spec, keys);
  }

  // ----- Following a partial function step by step

  /** The value after `n` steps, when every step could be taken. */
  ghost function Iterate<T>(step: T -> Option<T>, x: T, n: nat): Option<T> {
    if n == 0 then Some(x)
    else match Iterate(step, x, n - 1) case Some(y) => step(y) case None => None
  }

  /** Some number of steps leads back. */
  ghost predicate OnCycle<T(!new)>(step: T -> Option<T>, x: T) {
    exists n: nat :: n > 0 && Iterate(step, x, n) == Some(x)
  }

  lemma {:induction false} IterateAppend<T>(step: T -> Option<T>, x: T, m: nat, n: nat)
    requires Iterate(step, x, m).Some?
    ensures Iterate(step, x, m + n) == Iterate(step, Iterate(step, x, m).value, n)
  {
    if n > 0 {
      IterateAppend(step, x, m, n - 1);
      assert m + n - 1 == m + (n - 1);
    }
  }

  /** Whatever was reached before could be left. */
  lemma {:induction false} GoesOn<T>(step: T -> Option<T>, x: T, n: nat, k: nat)
    requires k < n && Iterate(step, x, n).Some?
    ensures Iterate(step, x, k).Some? && step(Iterate(step, x, k).value).Some?
  {
    if k < n - 1 { GoesOn(step, x, n - 1, k); }
  }

  lemma {:induction false} SameStep<T>(step: T -> Option<T>, x: T, y: T, n: nat)
    requires step(x) == step(y) && n > 0
    ensures Iterate(step, x, n) == Iterate(step, y, n)
  {
    if n == 1 {
      assert Iterate(step, x, 0) == Some(x) && Iterate(step, y, 0) == Some(y);
    } else {
      SameStep(step, x, y, n - 1);
    }
  }

  /** Two values reached that step to the same one: the later of them is on a cycle. */
  lemma RepeatClosesCycle<T(!new)>(step: T -> Option<T>, x: T, i: nat, n: nat)
    requires i < n && Iterate(step, x, i).Some? && Iterate(step, x, n).Some?
    requires step(Iterate(step, x, i).value) == step(Iterate(step, x, n).value)
    ensures OnCycle(step, Iterate(step, x, n).value)
  {
    var (y, z) := (Iterate(step, x, i).value, Iterate(step, x, n).value);
    IterateAppend(step, x, i, n - i);
    SameStep(step, y, z, n - i);
    assert Iterate(step, z, n - i) == Some(z);
  }

  lemma {:induction false} CycleGoesOn<T(!new)>(step: T -> Option<T>, x: T, k: nat)
    requires OnCycle(step, x)
    ensures Iterate(step, x, k).Some? && step(Iterate(step, x, k).value).Some?
  {
    var n: nat :| n > 0 && Iterate(step, x, n) == Some(x);
    if k < n {
      GoesOn(step, x, n, k);
    } else {
      IterateAppend(step, x, n, k - n);
      CycleGoesOn(step, x, k - n);
    }
  }

  /** Nothing stops once a cycle is reached. */
  lemma ReachesCycleGoesOn<T(!new)>(step: T -> Option<T>, x: T, k: nat, n: nat)
    requires Iterate(step, x, k).Some? && OnCycle(step, Iterate(step, x, k).value)
    ensures Iterate(step, x, n).Some? && step(Iterate(step, x, n).value).Some?
  {
    if n < k {
      CycleGoesOn(step, Iterate(step, x, k).value, 0);
      GoesOn(step, x, k, n);
    } else {
      IterateAppend(step, x, k, n - k);
      CycleGoesOn(step, Iterate(step, x, k).value, n - k);
    }
  }

  lemma StopsOnce<T(!new)>(step: T -> Option<T>, x: T, k: nat)
    requires Iterate(step, x, k).Some? && step(Iterate(step, x, k).value).None?
    ensures forall n: nat | Iterate(step, x, n).Some? && step(Iterate(step, x, n).value).None? :: n == k
  {
    forall n: nat | Iterate(step, x, n).Some? && step(Iterate(step, x, n).value).None? ensures n == k {
      if n < k {
        GoesOn(step, x, k, n);
      } else if k < n {
        GoesOn(step, x, n, k);
      }
    }
  }

  // ----- Chasing references

  /** What `schema["$ref"]` is, when there is one. */
  function RefOf(schema: Json): Option<Json> {
    if schema.Obj? then
      match KeyIndex(schema.fields, "$ref") case Some(i) => Some(schema.fields[i].value) case None => None
    else None
  }

  lemma RefIsKey(schema: Json)
    ensures RefOf(schema) == AtKeys(schema, ["$ref"])
  {
    assert ["$ref"][1..] == [];
  }

  lemma NoKeys(keys: seq<string>)
    ensures keys != [] ==> AtKeys(EMPTY, keys) == None
  {
  }

  /** A reference that can be followed: any other than a string makes the code raise. */
  predicate Refers(schema: Json) {
    RefOf(schema).Some? && RefOf(schema).value.Str?
  }

  /** The schema that a reference leads to. */
  function Follow(spec: Json, schema: Json): (r: Option<Json>)
    ensures r.Some? <==> Refers(schema)
  {
    if Refers(schema) then Some(Lookup(spec, RefOf(schema).value.s)) else None
  }

  function Follower(spec: Json): Json -> Option<Json> {
    schema => Follow(spec, schema)
  }

  /** All references found anywhere in a document. */
  ghost function Refs(v: Json): set<string> {
    match v
    case Arr(items) => set x, r | x in items && r in Refs(x) :: r
    case Obj(fields) =>
      (if Refers(v) then {RefOf(v).value.s} else {}) + set f, r | f in fields && r in Refs(f.value) :: r
    case _ => {}
  }

  lemma EntryRefs(node: Json, key: string)
    requires node.Obj?
    ensures Refs(Get(node, key, EMPTY)) <= Refs(node)
  {
    match KeyIndex(node.fields, key)
    case Some(i) => assert node.fields[i] in node.fields;
    case None => assert Refs(EMPTY) == {};
  }

  lemma {:induction false} WalkRefs(node: Json, parts: seq<string>)
    ensures Refs(Walk(node, parts)) <= Refs(node)
    decreases parts
  {
    if parts != [] {
      if node.Obj? {
        EntryRefs(node, Unescape(parts[0]));
        WalkRefs(Get(node, Unescape(parts[0]), EMPTY), parts[1..]);
      } else {
        assert Refs(EMPTY) == {};
      }
    }
  }

  lemma LookupRefs(spec: Json, ref: string)
    ensures Refs(Lookup(spec, ref)) <= Refs(spec)
  {
    assert Refs(EMPTY) == {};
    if "#/" <= ref { WalkRefs(spec, Split(ref[2..], '/')); }
  }

  /** The schema after `n` references have been followed. */
  ghost function Chase(spec: Json, schema: Json, n: nat): Option<Json> {
    Iterate(Follower(spec), schema, n)
  }

  /** The chase cannot leave this schema. */
  ghost predicate EndsAt(spec: Json, schema: Json, n: nat) {
    Chase(spec, schema, n).Some? && !Refers(Chase(spec, schema, n).value)
  }

  /** The reference was followed within the first `n` steps. */
  ghost predicate Followed(spec: Json, schema: Json, ref: string, n: nat) {
    exists i: nat :: i < n && Chase(spec, schema, i).Some? && RefOf(Chase(spec, schema, i).value) == Some(Str(ref))
  }

  lemma FollowOne(spec: Json, schema: Json, n: nat, ref: string)
    requires Chase(spec, schema, n).Some? && RefOf(Chase(spec, schema, n).value) == Some(Str(ref))
    ensures Chase(spec, schema, n + 1) == Some(Lookup(spec, ref))
    ensures Refers(Lookup(spec, ref)) ==> RefOf(Lookup(spec, ref)).value.s in Refs(spec)
    ensures Followed(spec, schema, ref, n + 1)
    ensures forall r | Followed(spec, schema, r, n) :: Followed(spec, schema, r, n + 1)
  {
    LookupRefs(spec, ref);
    assert Iterate(Follower(spec), schema, n + 1 - 1) == Chase(spec, schema, n);
  }

  lemma FollowedAgain(spec: Json, schema: Json, ref: string, n: nat)
    requires Chase(spec, schema, n).Some? && RefOf(Chase(spec, schema, n).value) == Some(Str(ref))
    requires Followed(spec, schema, ref, n)
    ensures OnCycle(Follower(spec), Chase(spec, schema, n).value)
    ensures forall k: nat :: !EndsAt(spec, schema, k)
  {
    var i: nat :| i < n && Chase(spec, schema, i).Some? && RefOf(Chase(spec, schema, i).value) == Some(Str(ref));
    RepeatClosesCycle(Follower(spec), schema, i, n);
    forall k: nat ensures !EndsAt(spec, schema, k) { ReachesCycleGoesOn(Follower(spec), schema, n, k); }
  }

  lemma EndsOnce(spec: Json, schema: Json, n: nat)
    requires EndsAt(spec, schema, n)
    ensures forall k: nat | EndsAt(spec, schema, k) :: k == n
  {
    StopsOnce(Follower(spec), schema, n);
  }

  /** `deref`, where None stands for the exception that a reference other than a string causes. The
      loop ends on every document. When the chase ends, the result is the schema at its end, or the
      exception there; else the result is a schema that was reached and lies on a cycle. A schema
      without a reference is its own result, and no other result has one. */
  method Deref(spec: Json, schema: Json) returns (r: Option<Json>)
    ensures !schema.Obj? ==> r == Some(EMPTY)
    ensures schema.Obj? ==> forall n: nat | EndsAt(spec, schema, n) ::
              r == if RefOf(Chase(spec, schema, n).value).None? then Chase(spec, schema, n) else None
    ensures schema.Obj? && (forall n: nat :: !EndsAt(spec, schema, n)) ==>
              r.Some? && OnCycle(Follower(spec), r.value) && exists n: nat :: Chase(spec, schema, n) == r
    ensures schema.Obj? && AtKeys(schema, ["$ref"]).None? ==> r == Some(schema)
    ensures r.Some? && AtKeys(r.value, ["$ref"]).Some? ==>
              AtKeys(r.value, ["$ref"]).value.Str? && OnCycle(Follower(spec), r.value)
  {
    hide AtKeys, Lookup, Refs;
    if !schema.Obj? {
      NoKeys(["$ref"]);
      return Some(EMPTY);
    }
    RefIsKey(schema);
    var seen: set<string> := {};
    var current := schema;
    ghost var n := 0;
    ghost var all := Refs(spec) + (if Refers(schema) then {RefOf(schema).value.s} else {});
    while RefOf(current).Some?
      invariant Chase(spec, schema, n) == Some(current)
      invariant Refers(current) ==> RefOf(current).value.s in all
      invariant forall ref | ref in seen :: Followed(spec, schema, ref, n)
      decreases all - seen
    {
      if !RefOf(current).value.Str? {
        EndsOnce(spec, schema, n);
        return None;
      }
      var ref := RefOf(current).value.s;
      if ref in seen {
        FollowedAgain(spec, schema, ref, n);
        RefIsKey(current);
        return Some(current);
      }
      FollowOne(spec, schema, n, ref);
      ghost var before := all - seen;
      seen := seen + {ref};
      assert ref in before && ref !in all - seen && all - seen <= before;
      current := ResolveRef(spec, ref);
      n := n + 1;
    }
    EndsOnce(spec, schema, n);
    RefIsKey(current);
    return Some(current);
  }

  /** The chase ends at a schema without a reference, or with one that is no string. */
  lemma ChaseEnds(spec: Json, schema: Json, n: nat)
    requires Chase(spec, schema, n).Some?
    ensures var ref := AtKeys(Chase(spec, schema, n).value, ["$ref"]);
      EndsAt(spec, schema, n) <==> ref.None? || !ref.value.Str?
  {
    hide AtKeys, Iterate;
    RefIsKey(Chase(spec, schema, n).value);
  }

  /** It goes on from a pointer to the dict under the pointer's path, or to an empty dict. */
  lemma ChaseGoesOn(spec: Json, schema: Json, n: nat, keys: seq<string>)
    requires Chase(spec, schema, n).Some? && keys != []
    requires AtKeys(Chase(spec, schema, n).value, ["$ref"]) == Some(Str(Pointer(keys)))
    ensures Chase(spec, schema, n + 1) ==
      match AtKeys(spec, keys) case Some(Obj(fields)) => Some(Obj(fields)) case _ => Some(Obj([]))
  {
    hide AtKeys, Lookup, Pointer;
    RefIsKey(Chase(spec, schema, n).value);
    FollowOne(spec, schema, n, Pointer(keys));
    PointerLeadsBack(spec, keys);
  }
}
