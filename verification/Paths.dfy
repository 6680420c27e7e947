/** Dotted paths and the read-only walk (`src/databridge/export/extraction.py`). */
module Paths {
  import opened Wrappers
  import opened JsonValues

  // ----- Dotted paths as lists of segments

  /** `text.split(sep)` for a one-character separator. */
  function Split(text: string, sep: char): (parts: seq<string>)
    ensures parts != []
    ensures forall p | p in parts :: sep !in p
  {
    if text == [] then [""]
    else
      var rest := Split(text[1..], sep);
      if text[0] == sep then [""] + rest else [[text[0]] + rest[0]] + rest[1..]
  }

  /** `sep.join(parts)` for a one-character separator. */
  function Join(parts: seq<string>, sep: char): string
    requires parts != []
  {
    if |parts| == 1 then parts[0] else parts[0] + [sep] + Join(parts[1..], sep)
  }

  /** The first segment comes off whole when it holds no separator. */
  lemma {:induction false} SplitFirst(first: string, tail: string, sep: char)
    requires sep !in first
    requires tail == [] || tail[0] == sep
    ensures Split(first + tail, sep) == if tail == [] then [first] else [first] + Split(tail[1..], sep)
  {
    var text := first + tail;
    if first != [] {
      assert text[1..] == first[1..] + tail;
      assert text[0] == first[0] && first[0] in first;
      SplitFirst(first[1..], tail, sep);
      assert [first[0]] + first[1..] == first;
    } else {
      assert text == tail;
    }
  }

  /** Splitting undoes joining when no segment holds the separator. */
  lemma {:induction false} SplitJoin(parts: seq<string>, sep: char)
    requires parts != [] && forall p | p in parts :: sep !in p
    ensures Split(Join(parts, sep), sep) == parts
  {
    if |parts| == 1 {
      assert parts[0] + "" == parts[0];
      SplitFirst(parts[0], "", sep);
    } else {
      var tail := [sep] + Join(parts[1..], sep);
      assert Join(parts, sep) == parts[0] + tail;
      SplitFirst(parts[0], tail, sep);
      SplitJoin(parts[1..], sep);
    }
  }

  // ----- One step of descent

  /** `key.isdigit()`, over ASCII. */
  predicate IsDigits(key: string) {
    key != [] && forall ch | ch in key :: IsDigit(ch)
  }

  /** `int(key)`: "0" and "00" are the same number. */
  function ToNat(key: string): nat
    requires forall ch | ch in key :: IsDigit(ch)
  {
    if key == [] then 0
    else
      var last := key[|key| - 1];
      assert last in key && IsDigit(last);
      10 * ToNat(key[..|key| - 1]) + (last - '0') as nat
  }

  /** The slot that `key` names in a decoded container. */
  function Locate(node: Json, key: string): (slot: Option<Slot>)
    ensures slot.Some? ==> HasSlot(node, slot.value)
  {
    match node
    case Arr(items) => if IsDigits(key) && ToNat(key) < |items| then Some(AtIndex(ToNat(key))) else None
    case Obj(fields) => if KeyIndex(fields, key).Some? then Some(AtKey(key)) else None
    case _ => None
  }

  /** `_decode_and_index`: the decoded node, and the slot of the child when it was found. */
  function DecodeAndIndex(c: Codec, node: Json, key: string): (Json, Option<Slot>) {
    var decoded := Decode(c, node);
    (decoded, Locate(decoded, key))
  }

  // ----- The read walk

  /** `resolve_field_path`: None stands for `_MISSING`. */
  function Resolve(c: Codec, container: Json, parts: seq<string>): Option<Json>
    decreases parts
  {
    if parts == [] then Some(container)
    else
      match DecodeAndIndex(c, container, parts[0])
      case (node, Some(slot)) => Resolve(c, Child(node, slot), parts[1..])
      case (_, None) => None
  }

  /** `extract_field_value`: the decoded dict or list at the path, or None. */
  function ExtractFieldValue(c: Codec, record: Json, fieldPath: string): Option<Json> {
    match Resolve(c, record, Split(fieldPath, '.'))
    case None => None
    case Some(v) => if IsContainer(Decode(c, v)) then Some(Decode(c, v)) else None
  }

  /** The slots a path passes through: two paths address the same place iff these agree. */
  function Location(c: Codec, container: Json, parts: seq<string>): (r: Option<seq<Slot>>)
    ensures r.Some? <==> Resolve(c, container, parts).Some?
    ensures r.Some? ==> |r.value| == |parts|
    decreases parts
  {
    if parts == [] then Some([])
    else
      match DecodeAndIndex(c, container, parts[0])
      case (node, Some(slot)) =>
        (match Location(c, Child(node, slot), parts[1..])
         case Some(rest) => Some([slot] + rest)
         case None => None)
      case (_, None) => None
  }

  /** What is decoded out of a valid tree is valid. */
  lemma DecodeValid(c: Codec, v: Json)
    requires Lawful(c) && Valid(v)
    ensures Valid(Decode(c, v))
  {
  }

  lemma {:induction false} ResolveValid(c: Codec, v: Json, parts: seq<string>)
    requires Lawful(c) && Valid(v) && Resolve(c, v, parts).Some?
    ensures Valid(Resolve(c, v, parts).value)
    decreases parts
  {
    if parts != [] {
      var (node, slot) := DecodeAndIndex(c, v, parts[0]);
      ChildValid(node, slot.value);
      ResolveValid(c, Child(node, slot.value), parts[1..]);
    }
  }

  /** Reading a path is reading its first part and then the rest. */
  lemma {:induction false} ResolveAppend(c: Codec, v: Json, p: seq<string>, q: seq<string>)
    ensures Resolve(c, v, p + q) ==
      match Resolve(c, v, p) case None => None case Some(w) => Resolve(c, w, q)
    decreases p
  {
    if p == [] {
      assert p + q == q;
    } else {
      var (node, slot) := DecodeAndIndex(c, v, p[0]);
      assert (p + q)[1..] == p[1..] + q;
      if slot.Some? {
        ResolveAppend(c, Child(node, slot.value), p[1..], q);
      }
    }
  }

  /** Extraction yields usable content exactly when the path leads to a container, native or
      encoded, and what it yields reads on exactly as the record does below that path. */
  lemma ExtractReadsOn(c: Codec, record: Json, fieldPath: string, rest: seq<string>)
    requires rest != []
    ensures var parts := Split(fieldPath, '.');
      match ExtractFieldValue(c, record, fieldPath)
      case None => Resolve(c, record, parts + rest) == None
      case Some(v) => IsContainer(v) && Resolve(c, v, rest) == Resolve(c, record, parts + rest)
  {
    ResolveAppend(c, record, Split(fieldPath, '.'), rest);
  }

  /** Extraction yields exactly the containers that stand at the path, decoded when they are text. */
  lemma ExtractsContainers(c: Codec, record: Json, fieldPath: string, v: Json)
    ensures ExtractFieldValue(c, record, fieldPath) == Some(v) <==>
      var found := Resolve(c, record, Split(fieldPath, '.'));
      && (v.Arr? || v.Obj?)
      && (found == Some(v) || (found.Some? && found.value.Str? && c.loads(found.value.s) == Some(v)))
  {
    var found := Resolve(c, record, Split(fieldPath, '.'));
    if found.Some? { assert found.value.Str? || Decode(c, found.value) == found.value; }
  }

  // ----- Dict keys and text containers

  /** A path of keys through dicts reads what stands under those keys, and nothing when one is
      missing. */
  lemma {:induction false} KeysRead(c: Codec, v: Json, keys: seq<string>)
    requires AtKeys(v, keys).Some?
    ensures Resolve(c, v, keys) == AtKeys(v, keys)
    decreases keys
  {
    if keys != [] {
      assert Child(v, AtKey(keys[0])) == Get(v, keys[0], Null);
      KeysRead(c, Get(v, keys[0], Null), keys[1..]);
    }
  }

  lemma MissingKey(c: Codec, v: Json, keys: seq<string>, key: string, rest: seq<string>)
    requires AtKeys(v, keys).Some? && AtKeys(v, keys).value.Obj?
    requires forall f | f in AtKeys(v, keys).value.fields :: f.key != key
    ensures Resolve(c, v, keys + ([key] + rest)) == None
  {
    KeysRead(c, v, keys);
    ResolveAppend(c, v, keys, [key] + rest);
    var node := AtKeys(v, keys).value;
    assert forall i | 0 <= i < |node.fields| :: node.fields[i] in node.fields;
  }

  /** Below a container in text a path reads what it reads in the container itself; what the text
      holds is decoded once and not again. */
  lemma TextReadsThrough(c: Codec, w: Json, p: seq<string>)
    requires Lawful(c) && Valid(w) && p != []
    ensures Resolve(c, Str(c.dumps(w)), p) == if w.Arr? || w.Obj? then Resolve(c, w, p) else None
  {
    assert c.loads(c.dumps(w)) == Some(w);
  }

  // ----- List indices

  /** Decimal notation without leading zeros. */
  function Decimal(n: nat): string {
    if n < 10 then ["0123456789"[n]] else Decimal(n / 10) + ["0123456789"[n % 10]]
  }

  function Zeros(k: nat): (t: string)
    ensures |t| == k && forall i | 0 <= i < k :: t[i] == '0'
  {
    if k == 0 then "" else "0" + Zeros(k - 1)
  }

  predicate AllDigits(t: string) {
    forall ch | ch in t :: IsDigit(ch)
  }

  lemma ToNatSnoc(t: string, ch: char)
    requires AllDigits(t) && IsDigit(ch)
    ensures AllDigits(t + [ch]) && ToNat(t + [ch]) == 10 * ToNat(t) + (ch - '0') as nat
  {
    assert (t + [ch])[..|t|] == t;
  }

  lemma DigitIs(d: nat)
    requires d < 10
    ensures var ch := "0123456789"[d]; IsDigit(ch) && (ch - '0') as nat == d
  {
  }

  lemma {:induction false} ZerosBefore(k: nat, t: string)
    requires AllDigits(t)
    ensures AllDigits(Zeros(k) + t) && ToNat(Zeros(k) + t) == ToNat(t)
    decreases |t|
  {
    if t == [] {
      assert Zeros(k) + t == Zeros(k);
      AllZeros(Zeros(k));
    } else {
      var (front, last) := (t[..|t| - 1], t[|t| - 1]);
      assert t == front + [last] && last in t && forall ch | ch in front :: ch in t;
      ZerosBefore(k, front);
      ToNatSnoc(front, last);
      ToNatSnoc(Zeros(k) + front, last);
      assert Zeros(k) + t == Zeros(k) + front + [last];
    }
  }

  lemma {:induction false} AllZeros(t: string)
    requires forall i | 0 <= i < |t| :: t[i] == '0'
    ensures AllDigits(t) && ToNat(t) == 0
  {
    if t != [] {
      AllZeros(t[..|t| - 1]);
    }
  }

  lemma {:induction false} DecimalIs(n: nat)
    ensures Decimal(n) != "" && AllDigits(Decimal(n)) && ToNat(Decimal(n)) == n
    ensures n > 0 ==> Decimal(n)[0] != '0'
  {
    DigitIs(n % 10);
    if n < 10 {
      ToNatSnoc("", "0123456789"[n]);
      assert "" + ["0123456789"[n]] == Decimal(n);
    } else {
      DecimalIs(n / 10);
      ToNatSnoc(Decimal(n / 10), "0123456789"[n % 10]);
    }
  }

  /** A list element is named by its decimal index, with any number of leading zeros, and only by
      segments of that form. */
  lemma IndexIsDecimal(items: seq<Json>, n: nat, k: nat)
    ensures Locate(Arr(items), Zeros(k) + Decimal(n)) == if n < |items| then Some(AtIndex(n)) else None
  {
    DecimalIs(n);
    ZerosBefore(k, Decimal(n));
  }

  lemma {:induction false} ZerosGrow(k: nat)
    ensures Zeros(k) + "0" == Zeros(k + 1)
  {
  }

  /** One more digit behind a decimal with leading zeros. */
  lemma DecimalGrows(k: nat, m: nat, ch: char)
    requires IsDigit(ch)
    ensures var d := (ch - '0') as nat;
      Zeros(k) + Decimal(m) + [ch] == if m == 0 then Zeros(k + 1) + Decimal(d) else Zeros(k) + Decimal(10 * m + d)
  {
    var d := (ch - '0') as nat;
    assert "0123456789"[d] == ch;
    if m == 0 {
      ZerosGrow(k);
      assert Decimal(0) == "0" && Decimal(d) == [ch];
    } else {
      assert (10 * m + d) / 10 == m && (10 * m + d) % 10 == d;
      assert Decimal(10 * m + d) == Decimal(m) + [ch];
      assert Zeros(k) + Decimal(m) + [ch] == Zeros(k) + (Decimal(m) + [ch]);
    }
  }

  /** Every digit segment is leading zeros before the decimal of its number. */
  lemma {:induction false} DigitsAreDecimal(key: string) returns (k: nat)
    requires IsDigits(key)
    ensures key == Zeros(k) + Decimal(ToNat(key))
  {
    hide Decimal, Zeros;
    var (front, last) := (key[..|key| - 1], key[|key| - 1]);
    assert key == front + [last] && last in key && forall ch | ch in front :: ch in key;
    ToNatSnoc(front, last);
    if front == "" {
      k := OneDigit(key);
    } else {
      k := DigitsAreDecimal(front);
      DecimalGrows(k, ToNat(front), last);
      if ToNat(front) == 0 { k := k + 1; }
    }
  }

  lemma OneDigit(key: string) returns (k: nat)
    requires |key| == 1 && IsDigits(key)
    ensures key == Zeros(k) + Decimal(ToNat(key))
  {
    assert key[..0] == "" && key[0] in key;
    k := 0;
    assert "0123456789"[(key[0] - '0') as nat] == key[0];
  }

  function StripZeros(t: string): string {
    if |t| > 1 && t[0] == '0' then StripZeros(t[1..]) else t
  }

  lemma {:induction false} StripsToDecimal(k: nat, n: nat)
    ensures StripZeros(Zeros(k) + Decimal(n)) == Decimal(n)
  {
    DecimalIs(n);
    var t := Zeros(k) + Decimal(n);
    if k > 0 {
      assert t[1..] == Zeros(k - 1) + Decimal(n);
      StripsToDecimal(k - 1, n);
    } else {
      assert t == Decimal(n);
    }
  }

  /** Two digit segments name one slot of a list exactly when they agree after leading zeros, and any
      other segment names none. */
  lemma OneSlotPerDecimal(items: seq<Json>, key: string, other: string)
    ensures Locate(Arr(items), key).Some? ==> IsDigits(key)
    ensures Locate(Arr(items), key).Some? && IsDigits(other) ==>
      (Locate(Arr(items), key) == Locate(Arr(items), other) <==> StripZeros(key) == StripZeros(other))
  {
    if Locate(Arr(items), key).Some? && IsDigits(other) {
      var k := DigitsAreDecimal(key);
      var l := DigitsAreDecimal(other);
      StripsToDecimal(k, ToNat(key));
      StripsToDecimal(l, ToNat(other));
      DecimalIs(ToNat(key));
      DecimalIs(ToNat(other));
    }
  }
}
