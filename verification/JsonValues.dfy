/** JSON values as Python holds them after decoding, the places inside a container that a
    path segment can name, and the laws a JSON text codec is relied on to satisfy. */
module JsonValues {
  import opened Wrappers

  /** A dict is its entries in insertion order; a number is its literal. */
  datatype Json =
    | Null
    | Bool(b: bool)
    | Num(literal: string)
    | Str(s: string)
    | Arr(items: seq<Json>)
    | Obj(fields: seq<Field>)

  datatype Field = Field(key: string, value: Json)

  /** One place inside a container: a list index or a dict key. */
  datatype Slot = AtIndex(i: nat) | AtKey(k: string)

  predicate IsContainer(v: Json) {
    v.Arr? || v.Obj?
  }

  ghost predicate UniqueKeys(fields: seq<Field>) {
    forall i, j | 0 <= i < j < |fields| :: fields[i].key != fields[j].key
  }

  /** What a decoded value always satisfies: no dict has two entries under one key, and every
      number is a literal of section 6 of RFC 8259. */
  ghost predicate Valid(v: Json) {
    match v
    case Num(literal) => IsNumber(literal)
    case Arr(items) => forall x | x in items :: Valid(x)
    case Obj(fields) => UniqueKeys(fields) && forall f | f in fields :: Valid(f.value)
    case _ => true
  }

  // ----- Number literals: [minus] int [frac] [exp]

  predicate IsDigit(ch: char) {
    '0' <= ch <= '9'
  }

  predicate IsNumber(t: string) {
    var t := if |t| > 0 && t[0] == '-' then t[1..] else t;
    |t| > 0 && IsDigit(t[0]) && IsFraction(if t[0] == '0' then t[1..] else SkipDigits(t))
  }

  predicate IsFraction(t: string) {
    if |t| > 0 && t[0] == '.' then |t| > 1 && IsDigit(t[1]) && IsExponent(SkipDigits(t[1..])) else IsExponent(t)
  }

  predicate IsExponent(t: string) {
    if t == [] then true
    else if t[0] != 'e' && t[0] != 'E' then false
    else
      var t := if |t| > 1 && (t[1] == '+' || t[1] == '-') then t[2..] else t[1..];
      |t| > 0 && SkipDigits(t) == []
  }

  function SkipDigits(t: string): (rest: string)
    ensures |rest| <= |t| && (rest == [] || !IsDigit(rest[0]))
    ensures rest == t[|t| - |rest|..]
    ensures forall ch | ch in t[..|t| - |rest|] :: IsDigit(ch)
  {
    if t == [] || !IsDigit(t[0]) then t else SkipDigits(t[1..])
  }

  // ----- Children of a container

  /** The position of the entry under `key`. */
  function KeyIndex(fields: seq<Field>, key: string): (r: Option<nat>)
    ensures r.Some? ==> r.value < |fields| && fields[r.value].key == key
    ensures r.Some? ==> forall j | 0 <= j < r.value :: fields[j].key != key
    ensures r.None? ==> forall j | 0 <= j < |fields| :: fields[j].key != key
  {
    if fields == [] then None
    else if fields[0].key == key then Some(0)
    else match KeyIndex(fields[1..], key)
      case None => None
      case Some(i) => Some(i + 1)
  }

  predicate HasSlot(node: Json, slot: Slot) {
    match slot
    case AtIndex(i) => node.Arr? && i < |node.items|
    case AtKey(k) => node.Obj? && KeyIndex(node.fields, k).Some?
  }

  function Child(node: Json, slot: Slot): Json
    requires HasSlot(node, slot)
  {
    match slot
    case AtIndex(i) => node.items[i]
    case AtKey(k) => node.fields[KeyIndex(node.fields, k).value].value
  }

  /** `node[slot] = v`, which leaves the order of the entries alone. */
  function SetChild(node: Json, slot: Slot, v: Json): Json
    requires HasSlot(node, slot)
  {
    match slot
    case AtIndex(i) => Arr(node.items[i := v])
    case AtKey(k) => Obj(node.fields[KeyIndex(node.fields, k).value := Field(k, v)])
  }

  /** `del node[slot]`: later list elements move down by one. */
  function RemoveChild(node: Json, slot: Slot): Json
    requires HasSlot(node, slot)
  {
    match slot
    case AtIndex(i) => Arr(node.items[..i] + node.items[i + 1..])
    case AtKey(k) =>
      var i := KeyIndex(node.fields, k).value;
      Obj(node.fields[..i] + node.fields[i + 1..])
  }

  /** `node.get(key, otherwise)`. */
  function Get(node: Json, key: string, otherwise: Json): Json
    requires node.Obj?
  {
    match KeyIndex(node.fields, key) case Some(i) => node.fields[i].value case None => otherwise
  }

  /** The value under a path of dict keys. */
  function AtKeys(node: Json, keys: seq<string>): Option<Json>
    decreases keys
  {
    if keys == [] then Some(node)
    else if node.Obj? && KeyIndex(node.fields, keys[0]).Some? then AtKeys(Get(node, keys[0], Null), keys[1..])
    else None
  }

  lemma ChildValid(node: Json, slot: Slot)
    requires Valid(node) && HasSlot(node, slot)
    ensures Valid(Child(node, slot))
  {
    match slot
    case AtIndex(i) => assert node.items[i] in node.items;
    case AtKey(k) => assert node.fields[KeyIndex(node.fields, k).value] in node.fields;
  }

  lemma KeyIndexIs(fields: seq<Field>, key: string, i: nat)
    requires i < |fields| && fields[i].key == key
    requires forall j | 0 <= j < i :: fields[j].key != key
    ensures KeyIndex(fields, key) == Some(i)
  {
  }

  /** Writing one slot keeps every slot and changes the child of that slot only. */
  lemma SetChildLaws(node: Json, slot: Slot, v: Json, other: Slot)
    requires HasSlot(node, slot)
    ensures var after := SetChild(node, slot, v);
      && (HasSlot(after, other) <==> HasSlot(node, other))
      && (HasSlot(node, other) ==> Child(after, other) == if other == slot then v else Child(node, other))
  {
    var after := SetChild(node, slot, v);
    if node.Obj? && other.AtKey? {
      assert forall j | 0 <= j < |node.fields| :: after.fields[j].key == node.fields[j].key;
      match KeyIndex(node.fields, other.k)
      case Some(i) => KeyIndexIs(after.fields, other.k, i);
      case None =>
    }
  }

  lemma SetChildValid(node: Json, slot: Slot, v: Json)
    requires Valid(node) && Valid(v) && HasSlot(node, slot)
    ensures Valid(SetChild(node, slot, v))
  {
    var after := SetChild(node, slot, v);
    match slot
    case AtIndex(i) =>
      forall x | x in after.items ensures Valid(x) {}
    case AtKey(k) =>
      forall f | f in after.fields ensures Valid(f.value) {}
  }

  /** Deleting a dict entry removes its key and leaves every other entry alone. */
  lemma RemoveKeyLaws(node: Json, k: string, other: Slot)
    requires Valid(node) && HasSlot(node, AtKey(k))
    ensures var after := RemoveChild(node, AtKey(k));
      && (HasSlot(after, other) <==> HasSlot(node, other) && other != AtKey(k))
      && (HasSlot(after, other) ==> Child(after, other) == Child(node, other))
  {
    if other.AtKey? {
      var (at, o) := (KeyIndex(node.fields, k).value, KeyIndex(node.fields, other.k));
      var fields := node.fields[..at] + node.fields[at + 1..];
      assert RemoveChild(node, AtKey(k)) == Obj(fields);
      RemoveEntry(node.fields, at, other.k);
      if o.Some? && o.value != at {
        var i := if o.value < at then o.value else o.value - 1;
        assert KeyIndex(fields, other.k) == Some(i) && fields[i] == node.fields[o.value];
      }
    }
  }

  lemma RemoveEntry(fields: seq<Field>, i: nat, key: string)
    requires UniqueKeys(fields) && i < |fields|
    ensures KeyIndex(fields[..i] + fields[i + 1..], key) == IndexWithout(fields, i, key)
  {
    var after := fields[..i] + fields[i + 1..];
    assert forall j | 0 <= j < |after| :: after[j] == fields[if j < i then j else j + 1];
    ShiftedIndex(fields, i, after, key);
  }

  /** The position of a key once entry `i` is gone. */
  function IndexWithout(fields: seq<Field>, i: nat, key: string): Option<nat> {
    match KeyIndex(fields, key)
    case None => None
    case Some(at) => if at == i then None else if at < i then Some(at) else Some(at - 1)
  }

  lemma ShiftedIndex(fields: seq<Field>, i: nat, after: seq<Field>, key: string)
    requires UniqueKeys(fields) && i < |fields| && |after| == |fields| - 1
    requires forall j | 0 <= j < |after| :: after[j] == fields[if j < i then j else j + 1]
    ensures KeyIndex(after, key) == IndexWithout(fields, i, key)
  {
    match IndexWithout(fields, i, key)
    case Some(at) => KeyIndexIs(after, key, at);
    case None =>
      forall j | 0 <= j < |after| ensures after[j].key != key {}
  }

  lemma RemoveChildValid(node: Json, slot: Slot)
    requires Valid(node) && HasSlot(node, slot)
    ensures Valid(RemoveChild(node, slot))
  {
    var after := RemoveChild(node, slot);
    match slot
    case AtIndex(i) =>
      forall x | x in after.items ensures x in node.items {}
    case AtKey(k) =>
      forall f | f in after.fields ensures f in node.fields {}
  }

  // ----- The text codec

  /** `json.dumps(ensure_ascii=False)`, `json.loads` (None for a decoding error) and
      `hashlib.sha256(str(value).encode()).hexdigest()`. */
  datatype Codec = Codec(dumps: Json -> string, loads: string -> Option<Json>, digest: Json -> string)

  predicate IsSpace(ch: char) {
    ch == ' ' || ch == '\t' || ch == '\n' || ch == '\r'
  }

  function TrimLeft(t: string): (r: string)
    ensures |r| <= |t| && (r == [] || !IsSpace(r[0]))
  {
    if t != [] && IsSpace(t[0]) then TrimLeft(t[1..]) else t
  }

  /** The test that guards decoding in both discovery walks. */
  predicate LooksLikeContainer(t: string) {
    var r := TrimLeft(t);
    r != [] && (r[0] == '{' || r[0] == '[')
  }

  predicate IsHex(ch: char) {
    '0' <= ch <= '9' || 'a' <= ch <= 'f'
  }

  const MASKED: string := "***"
  const REDACTED: string := "[REDACTED]"

  /** What the walks rely on. `JsonText` exhibits a codec with all of these properties. */
  ghost predicate Lawful(c: Codec) {
    && (forall v: Json | Valid(v) :: c.loads(c.dumps(v)) == Some(v))
    && (forall t: string | c.loads(t).Some? :: Valid(c.loads(t).value))
    && (forall t: string | c.loads(t).Some? && IsContainer(c.loads(t).value) :: LooksLikeContainer(t))
    && c.loads(REDACTED) == None
    && (forall v: Json :: |c.digest(v)| == 64)
    && (forall v: Json, i: nat | i < 64 && i < |c.digest(v)| :: IsHex(c.digest(v)[i]))
  }

  /** A string container is decoded once; anything else, or a text that is not JSON, is kept. */
  function Decode(c: Codec, v: Json): Json {
    if v.Str? && c.loads(v.s).Some? then c.loads(v.s).value else v
  }
}
