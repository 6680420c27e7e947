/** A printer and a parser for JSON text (RFC 8259, sections 2 to 7), in the layout of Python's
    `json` module. Together they satisfy everything that the path walks ask of a codec. */
module JsonText {
  import opened Wrappers
  import opened JsonValues

  // ----- Printing

  const HEX: string := "0123456789abcdef"

  function EscapeChar(ch: char): (t: string)
    ensures t != []
  {
    if ch == '"' then "\\\""
    else if ch == '\\' then "\\\\"
    else if ch == '\n' then "\\n"
    else if ch == '\r' then "\\r"
    else if ch == '\t' then "\\t"
    else if ch == '\U{0C}' then "\\f"
    else if ch == '\U{08}' then "\\b"
    else if ch < ' ' then "\\u00" + [HEX[ch as int / 16], HEX[ch as int % 16]]
    else [ch]
  }

  function Escape(s: string): string {
    if s == [] then "" else EscapeChar(s[0]) + Escape(s[1..])
  }

  function Quote(s: string): string {
    "\"" + Escape(s) + "\""
  }

  function Dumps(v: Json): string {
    match v
    case Null => "null"
    case Bool(b) => if b then "true" else "false"
    case Num(literal) => literal
    case Str(s) => Quote(s)
    case Arr(items) => "[" + DumpsItems(items) + "]"
    case Obj(fields) => "{" + DumpsFields(fields) + "}"
  }

  function DumpsItems(items: seq<Json>): string {
    if items == [] then ""
    else Dumps(items[0]) + if |items| == 1 then "" else ", " + DumpsItems(items[1..])
  }

  function DumpsFields(fields: seq<Field>): string {
    if fields == [] then ""
    else
      Quote(fields[0].key) + ": " + Dumps(fields[0].value)
      + if |fields| == 1 then "" else ", " + DumpsFields(fields[1..])
  }

  // ----- Parsing: each parser returns what it read and the text that follows

  datatype Parsed<+T> = Fail | Ok(value: T, rest: string)

  function HexValue(ch: char): Option<nat> {
    if '0' <= ch <= '9' then Some((ch - '0') as nat)
    else if 'a' <= ch <= 'f' then Some((ch - 'a') as nat + 10)
    else if 'A' <= ch <= 'F' then Some((ch - 'A') as nat + 10)
    else None
  }

  /** The code unit of four hex digits; a surrogate is no character of its own. */
  function ParseHex4(t: string): Parsed<char> {
    if |t| < 4 then Fail
    else
      match (HexValue(t[0]), HexValue(t[1]), HexValue(t[2]), HexValue(t[3]))
      case (Some(a), Some(b), Some(d), Some(e)) =>
        var n := 4096 * a + 256 * b + 16 * d + e;
        if n < 0xD800 || 0xE000 <= n < 0x10000 then Ok(n as char, t[4..]) else Fail
      case _ => Fail
  }

  /** One character of a string, possibly escaped. */
  function ParseChar(t: string): (r: Parsed<char>)
    ensures r.Ok? ==> |r.rest| < |t|
  {
    if t == [] || t[0] < ' ' || t[0] == '"' then Fail
    else if t[0] != '\\' then Ok(t[0], t[1..])
    else if |t| == 1 then Fail
    else
      match t[1]
      case '"' => Ok('"', t[2..])
      case '\\' => Ok('\\', t[2..])
      case '/' => Ok('/', t[2..])
      case 'n' => Ok('\n', t[2..])
      case 'r' => Ok('\r', t[2..])
      case 't' => Ok('\t', t[2..])
      case 'f' => Ok('\U{0C}', t[2..])
      case 'b' => Ok('\U{08}', t[2..])
      case 'u' => ParseHex4(t[2..])
      case _ => Fail
  }

  /** The characters up to and including the closing quote. */
  function ParseChars(t: string): (r: Parsed<string>)
    ensures r.Ok? ==> |r.rest| < |t|
    decreases |t|
  {
    if t != [] && t[0] == '"' then Ok("", t[1..])
    else
      match ParseChar(t)
      case Fail => Fail
      case Ok(ch, rest) =>
        match ParseChars(rest)
        case Fail => Fail
        case Ok(s, after) => Ok([ch] + s, after)
  }

  predicate IsNumberChar(ch: char) {
    IsDigit(ch) || ch in "+-.eE"
  }

  function NumberLength(t: string): (n: nat)
    ensures n <= |t|
  {
    if t == [] || !IsNumberChar(t[0]) then 0 else 1 + NumberLength(t[1..])
  }

  function ParseNumber(t: string): (r: Parsed<Json>)
    ensures r.Ok? ==> |r.rest| < |t|
  {
    var n := NumberLength(t);
    if n > 0 && IsNumber(t[..n]) then Ok(Num(t[..n]), t[n..]) else Fail
  }

  function ParseWord(t: string, word: string, v: Json): (r: Parsed<Json>)
    requires word != []
    ensures r.Ok? ==> |r.rest| < |t| && r.value == v
  {
    if word <= t then Ok(v, t[|word|..]) else Fail
  }

  function ParseValue(text: string): (r: Parsed<Json>)
    ensures r.Ok? ==> |r.rest| < |text|
    decreases |text|, 1
  {
    ParseTrimmed(TrimLeft(text))
  }

  function ParseTrimmed(t: string): (r: Parsed<Json>)
    ensures r.Ok? ==> |r.rest| < |t|
    decreases |t|, 0
  {
    if t == [] then Fail
    else if t[0] == '"' then (match ParseChars(t[1..]) case Fail => Fail case Ok(s, rest) => Ok(Str(s), rest))
    else if t[0] == '[' then
      var inner := TrimLeft(t[1..]);
      if inner != [] && inner[0] == ']' then Ok(Arr([]), inner[1..])
      else (match ParseItems(t[1..]) case Fail => Fail case Ok(items, rest) => Ok(Arr(items), rest))
    else if t[0] == '{' then
      var inner := TrimLeft(t[1..]);
      if inner != [] && inner[0] == '}' then Ok(Obj([]), inner[1..])
      else (match ParseFields(t[1..]) case Fail => Fail case Ok(fields, rest) => Ok(Obj(Collapse(fields)), rest))
    else if t[0] == 'n' then ParseWord(t, "null", Null)
    else if t[0] == 't' then ParseWord(t, "true", Bool(true))
    else if t[0] == 'f' then ParseWord(t, "false", Bool(false))
    else ParseNumber(t)
  }

  /** At least one item, and the closing bracket. */
  function ParseItems(t: string): (r: Parsed<seq<Json>>)
    ensures r.Ok? ==> |r.rest| < |t|
    decreases |t|, 2
  {
    match ParseValue(t)
    case Fail => Fail
    case Ok(v, rest) =>
      var next := TrimLeft(rest);
      if next == [] then Fail
      else if next[0] == ']' then Ok([v], next[1..])
      else if next[0] != ',' then Fail
      else match ParseItems(next[1..]) case Fail => Fail case Ok(vs, after) => Ok([v] + vs, after)
  }

  function ParseField(text: string): (r: Parsed<Field>)
    ensures r.Ok? ==> |r.rest| < |text|
    decreases |text|, 1
  {
    var t := TrimLeft(text);
    if t == [] || t[0] != '"' then Fail
    else
      match ParseChars(t[1..])
      case Fail => Fail
      case Ok(key, rest) =>
        var next := TrimLeft(rest);
        if next == [] || next[0] != ':' then Fail
        else match ParseValue(next[1..]) case Fail => Fail case Ok(v, after) => Ok(Field(key, v), after)
  }

  /** At least one entry, and the closing brace. */
  function ParseFields(t: string): (r: Parsed<seq<Field>>)
    ensures r.Ok? ==> |r.rest| < |t|
    decreases |t|, 2
  {
    match ParseField(t)
    case Fail => Fail
    case Ok(f, rest) =>
      var next := TrimLeft(rest);
      if next == [] then Fail
      else if next[0] == '}' then Ok([f], next[1..])
      else if next[0] != ',' then Fail
      else match ParseFields(next[1..]) case Fail => Fail case Ok(fs, after) => Ok([f] + fs, after)
  }

  /** The dict built from entries in order: a repeated key keeps its place and takes the last value. */
  function Collapse(fields: seq<Field>): seq<Field> {
    if fields == [] then []
    else
      var front, last := Collapse(fields[..|fields| - 1]), fields[|fields| - 1];
      match KeyIndex(front, last.key)
      case Some(i) => front[i := last]
      case None => front + [last]
  }

  function Loads(t: string): Option<Json> {
    match ParseValue(t)
    case Ok(v, rest) => if TrimLeft(rest) == [] then Some(v) else None
    case Fail => None
  }

  // ----- Parsing undoes printing

  lemma ParseControl(ch: char, rest: string)
    requires |EscapeChar(ch)| == 6
    ensures ParseChar(EscapeChar(ch) + rest) == Ok(ch, rest)
  {
    var t := EscapeChar(ch) + rest;
    var n := ch as int;
    assert t[..2] == "\\u" && t[2..][4..] == rest;
    assert HexValue(HEX[n / 16]) == Some(n / 16) && HexValue(HEX[n % 16]) == Some(n % 16);
  }

  lemma ParseNamed(ch: char, rest: string)
    requires |EscapeChar(ch)| == 2
    ensures ParseChar(EscapeChar(ch) + rest) == Ok(ch, rest)
  {
    hide ParseHex4;
    assert (EscapeChar(ch) + rest)[2..] == rest;
  }

  lemma ParseEscaped(ch: char, rest: string)
    ensures ParseChar(EscapeChar(ch) + rest) == Ok(ch, rest)
    ensures EscapeChar(ch)[0] != '"'
  {
    hide ParseHex4;
    if |EscapeChar(ch)| == 6 {
      ParseControl(ch, rest);
    } else if |EscapeChar(ch)| == 2 {
      ParseNamed(ch, rest);
    } else {
      assert (EscapeChar(ch) + rest)[1..] == rest;
    }
  }

  lemma ParseCharsOne(t: string, ch: char, rest: string)
    requires t != [] && t[0] != '"' && ParseChar(t) == Ok(ch, rest)
    ensures ParseChars(t) == match ParseChars(rest) case Fail => Fail case Ok(s, after) => Ok([ch] + s, after)
  {
    hide ParseChar;
  }

  lemma ParseClosing(rest: string)
    ensures ParseChars("\"" + rest) == Ok("", rest)
  {
    assert ("\"" + rest)[1..] == rest;
  }

  lemma EscapeGroups(first: string, more: string, rest: string)
    ensures first + more + "\"" + rest == first + (more + "\"" + rest)
  {
  }

  lemma {:induction false} ParseEscape(s: string, rest: string)
    ensures ParseChars(Escape(s) + "\"" + rest) == Ok(s, rest)
  {
    hide ParseChars, ParseChar, EscapeChar;
    if s == [] {
      ParseClosing(rest);
      assert Escape(s) + "\"" + rest == "\"" + rest;
    } else {
      var tail := Escape(s[1..]) + "\"" + rest;
      EscapeGroups(EscapeChar(s[0]), Escape(s[1..]), rest);
      ParseEscaped(s[0], tail);
      ParseCharsOne(EscapeChar(s[0]) + tail, s[0], tail);
      ParseEscape(s[1..], rest);
      assert [s[0]] + s[1..] == s;
    }
  }

  /** What may follow a value inside a printed text. */
  predicate Ends(rest: string) {
    rest == [] || rest[0] == ',' || rest[0] == ']' || rest[0] == '}'
  }

  predicate NumberChars(t: string) {
    forall ch | ch in t :: IsNumberChar(ch)
  }

  lemma NumberCharsCons(t: string)
    requires t != [] && IsNumberChar(t[0]) && NumberChars(t[1..])
    ensures NumberChars(t)
  {
    assert t == [t[0]] + t[1..];
  }

  lemma NumberIsNumberChars(t: string)
    requires IsNumber(t)
    ensures t != [] && NumberChars(t)
    ensures t[0] == '-' || IsDigit(t[0])
  {
    if t[0] == '-' {
      UnsignedChars(t[1..]);
      NumberCharsCons(t);
    } else {
      UnsignedChars(t);
    }
  }

  lemma UnsignedChars(t: string)
    requires t != [] && IsDigit(t[0]) && IsFraction(if t[0] == '0' then t[1..] else SkipDigits(t))
    ensures NumberChars(t)
  {
    if t[0] == '0' {
      FractionChars(t[1..]);
      NumberCharsCons(t);
    } else {
      FractionChars(SkipDigits(t));
      DigitsThen(t, SkipDigits(t));
    }
  }

  lemma FractionChars(t: string)
    requires IsFraction(t)
    ensures NumberChars(t)
  {
    if t != [] && t[0] == '.' {
      ExponentChars(SkipDigits(t[1..]));
      DigitsThen(t[1..], SkipDigits(t[1..]));
      NumberCharsCons(t);
    } else {
      ExponentChars(t);
    }
  }

  lemma DigitsThen(t: string, rest: string)
    requires |rest| <= |t| && rest == t[|t| - |rest|..]
    requires forall ch | ch in t[..|t| - |rest|] :: IsDigit(ch)
    ensures NumberChars(rest) ==> NumberChars(t)
  {
    assert t == t[..|t| - |rest|] + rest;
  }

  lemma ExponentChars(t: string)
    requires IsExponent(t)
    ensures NumberChars(t)
  {
    if t != [] {
      var u := if |t| > 1 && (t[1] == '+' || t[1] == '-') then t[2..] else t[1..];
      DigitsThen(u, []);
      assert t == t[..|t| - |u|] + u;
    }
  }

  lemma {:induction false} NumberLengthIs(t: string, rest: string)
    requires NumberChars(t) && Ends(rest)
    ensures NumberLength(t + rest) == |t|
  {
    if t != [] {
      assert (t + rest)[1..] == t[1..] + rest;
      NumberLengthIs(t[1..], rest);
    } else {
      assert t + rest == rest;
    }
  }

  lemma {:induction false} RoundTrip(v: Json, rest: string)
    requires Valid(v) && Ends(rest)
    ensures ParseValue(Dumps(v) + rest) == Ok(v, rest)
    decreases v, 1
  {
    match v
    case Null => RoundTripWords(rest);
    case Bool(b) => RoundTripWords(rest);
    case Num(literal) => RoundTripNumber(literal, rest);
    case Str(s) => RoundTripString(s, rest);
    case Arr(items) => RoundTripArray(items, rest);
    case Obj(fields) => RoundTripObject(fields, rest);
  }

  lemma Bracketed(open: string, body: string, close: string, rest: string)
    requires |open| == 1
    ensures var t := open + body + close + rest;
      t != [] && t[0] == open[0] && t[1..] == body + (close + rest)
  {
  }

  lemma {:induction false} RoundTripArray(items: seq<Json>, rest: string)
    requires Valid(Arr(items))
    ensures ParseValue("[" + DumpsItems(items) + "]" + rest) == Ok(Arr(items), rest)
    decreases items, 1
  {
    var t := "[" + DumpsItems(items) + "]" + rest;
    if items == [] {
      assert t == "[]" + rest;
      ParseEmpty(t, rest);
    } else {
      Bracketed("[", DumpsItems(items), "]", rest);
      RoundTripItems(items, rest);
      ParseArray(t);
    }
  }

  lemma {:induction false} RoundTripObject(fields: seq<Field>, rest: string)
    requires Valid(Obj(fields))
    ensures ParseValue("{" + DumpsFields(fields) + "}" + rest) == Ok(Obj(fields), rest)
    decreases fields, 1
  {
    var t := "{" + DumpsFields(fields) + "}" + rest;
    if fields == [] {
      assert t == "{}" + rest;
      ParseEmpty(t, rest);
    } else {
      Bracketed("{", DumpsFields(fields), "}", rest);
      RoundTripFields(fields, rest);
      ParseObject(t);
      CollapseUnique(fields);
    }
  }

  lemma RoundTripWords(rest: string)
    ensures ParseValue("null" + rest) == Ok(Null, rest)
    ensures ParseValue("true" + rest) == Ok(Bool(true), rest)
    ensures ParseValue("false" + rest) == Ok(Bool(false), rest)
  {
    assert ("null" + rest)[4..] == ("true" + rest)[4..] == ("false" + rest)[5..] == rest;
  }

  lemma RoundTripNumber(literal: string, rest: string)
    requires IsNumber(literal) && Ends(rest)
    ensures ParseValue(literal + rest) == Ok(Num(literal), rest)
  {
    NumberIsNumberChars(literal);
    NumberLengthIs(literal, rest);
    assert (literal + rest)[..|literal|] == literal && (literal + rest)[|literal|..] == rest;
    ParseNumeric(literal + rest);
  }

  lemma RoundTripString(s: string, rest: string)
    ensures ParseValue(Quote(s) + rest) == Ok(Str(s), rest)
  {
    assert (Quote(s) + rest)[1..] == Escape(s) + "\"" + rest;
    ParseEscape(s, rest);
    ParseQuoted(Quote(s) + rest);
  }

  lemma Trimmed(t: string)
    requires t == [] || !IsSpace(t[0])
    ensures TrimLeft(t) == t
  {
  }

  lemma NumberHead(ch: char)
    requires ch == '-' || IsDigit(ch)
    ensures !IsSpace(ch) && ch != '"' && ch != '[' && ch != '{' && ch != 'n' && ch != 't' && ch != 'f' && ch !in "]}"
  {
  }

  lemma ParseNumeric(t: string)
    requires t != [] && (t[0] == '-' || IsDigit(t[0]))
    ensures ParseValue(t) == ParseNumber(t)
  {
    NumberHead(t[0]);
    Trimmed(t);
  }

  lemma ParseQuoted(t: string)
    requires t != [] && t[0] == '"'
    ensures ParseValue(t) == match ParseChars(t[1..]) case Fail => Fail case Ok(s, rest) => Ok(Str(s), rest)
  {
    Trimmed(t);
  }

  lemma ParseArray(t: string)
    requires |t| > 1 && t[0] == '[' && !IsSpace(t[1]) && t[1] != ']'
    ensures ParseValue(t) ==
      match ParseItems(t[1..]) case Fail => Fail case Ok(items, rest) => Ok(Arr(items), rest)
  {
    Trimmed(t);
    Trimmed(t[1..]);
  }

  lemma ParseObject(t: string)
    requires |t| > 1 && t[0] == '{' && !IsSpace(t[1]) && t[1] != '}'
    ensures ParseValue(t) ==
      match ParseFields(t[1..]) case Fail => Fail case Ok(fields, rest) => Ok(Obj(Collapse(fields)), rest)
  {
    Trimmed(t);
    Trimmed(t[1..]);
  }

  lemma ParseEmpty(t: string, rest: string)
    ensures t == "[]" + rest ==> ParseValue(t) == Ok(Arr([]), rest)
    ensures t == "{}" + rest ==> ParseValue(t) == Ok(Obj([]), rest)
  {
    if t == "[]" + rest || t == "{}" + rest {
      Trimmed(t);
      Trimmed(t[1..]);
      assert t[1..][1..] == rest;
    }
  }

  /** Text that starts with one blank parses as the text behind it. */
  lemma SkipBlank(t: string)
    ensures ParseValue(" " + t) == ParseValue(t)
    ensures ParseItems(" " + t) == ParseItems(t)
    ensures ParseFields(" " + t) == ParseFields(t)
  {
    assert (" " + t)[1..] == t;
    assert TrimLeft(" " + t) == TrimLeft(t);
    assert ParseValue(" " + t) == ParseValue(t);
    assert ParseField(" " + t) == ParseField(t);
  }

  lemma ItemsStep(t: string, v: Json, tail: string)
    requires ParseValue(t) == Ok(v, ", " + tail)
    ensures ParseItems(t) ==
      match ParseItems(tail) case Fail => Fail case Ok(vs, after) => Ok([v] + vs, after)
  {
    hide ParseTrimmed;
    Trimmed(", " + tail);
    assert (", " + tail)[1..] == " " + tail;
    SkipBlank(tail);
  }

  lemma ItemsEnd(t: string, v: Json, tail: string)
    requires ParseValue(t) == Ok(v, "]" + tail)
    ensures ParseItems(t) == Ok([v], tail)
  {
    hide ParseTrimmed;
    Trimmed("]" + tail);
    assert ("]" + tail)[1..] == tail;
  }

  lemma FieldStep(t: string, key: string, tail: string)
    requires t != [] && t[0] == '"' && ParseChars(t[1..]) == Ok(key, ": " + tail)
    ensures ParseField(t) ==
      match ParseValue(tail) case Fail => Fail case Ok(v, after) => Ok(Field(key, v), after)
  {
    hide ParseTrimmed;
    Trimmed(t);
    Trimmed(": " + tail);
    assert (": " + tail)[1..] == " " + tail;
    SkipBlank(tail);
  }

  lemma FieldsStep(t: string, f: Field, tail: string)
    requires ParseField(t) == Ok(f, ", " + tail)
    ensures ParseFields(t) ==
      match ParseFields(tail) case Fail => Fail case Ok(fs, after) => Ok([f] + fs, after)
  {
    hide ParseTrimmed;
    Trimmed(", " + tail);
    assert (", " + tail)[1..] == " " + tail;
    SkipBlank(tail);
  }

  lemma FieldsEnd(t: string, f: Field, tail: string)
    requires ParseField(t) == Ok(f, "}" + tail)
    ensures ParseFields(t) == Ok([f], tail)
  {
    hide ParseTrimmed;
    Trimmed("}" + tail);
    assert ("}" + tail)[1..] == tail;
  }

  /** A printed value starts with a character that no other step of the parser takes. */
  lemma DumpsHead(v: Json)
    requires Valid(v)
    ensures Dumps(v) != [] && !IsSpace(Dumps(v)[0]) && Dumps(v)[0] != ']' && Dumps(v)[0] != '}'
  {
    if v.Num? {
      NumberIsNumberChars(v.literal);
      NumberHead(v.literal[0]);
    }
  }

  lemma Regroup(a: string, b: string, d: string, e: string)
    ensures (a + (b + d)) + e == a + (b + (d + e))
  {
  }

  lemma {:induction false} RoundTripItems(items: seq<Json>, rest: string)
    requires items != [] && forall x | x in items :: Valid(x)
    ensures ParseItems(DumpsItems(items) + ("]" + rest)) == Ok(items, rest)
    ensures DumpsItems(items) != [] && !IsSpace(DumpsItems(items)[0]) && DumpsItems(items)[0] != ']'
    decreases items, 0
  {
    hide ParseTrimmed, ParseItems;
    DumpsHead(items[0]);
    if |items| == 1 {
      RoundTrip(items[0], "]" + rest);
      ItemsEnd(Dumps(items[0]) + ("]" + rest), items[0], rest);
      assert DumpsItems(items) == Dumps(items[0]) && items == [items[0]];
    } else {
      var tail := DumpsItems(items[1..]) + ("]" + rest);
      var t := Dumps(items[0]) + (", " + tail);
      Regroup(Dumps(items[0]), ", ", DumpsItems(items[1..]), "]" + rest);
      RoundTrip(items[0], ", " + tail);
      RoundTripItems(items[1..], rest);
      ItemsStep(t, items[0], tail);
      assert [items[0]] + items[1..] == items;
    }
  }

  lemma QuotedTail(escaped: string, value: string, rest: string)
    ensures var t := "\"" + escaped + "\"" + ": " + value + rest;
      t[0] == '"' && t[1..] == escaped + "\"" + (": " + (value + rest))
  {
  }

  lemma {:induction false} RoundTripField(f: Field, rest: string)
    requires Valid(f.value) && Ends(rest)
    ensures ParseField(Quote(f.key) + ": " + Dumps(f.value) + rest) == Ok(f, rest)
    decreases f, 2
  {
    hide ParseTrimmed;
    var value := Dumps(f.value) + rest;
    var t := Quote(f.key) + ": " + Dumps(f.value) + rest;
    QuotedTail(Escape(f.key), Dumps(f.value), rest);
    ParseEscape(f.key, ": " + value);
    FieldStep(t, f.key, value);
    RoundTrip(f.value, rest);
  }

  lemma QuoteHead(key: string)
    ensures Quote(key) != "" && Quote(key)[0] == '"'
  {
    hide Escape;
  }

  /** The text of entries, the first one set apart. */
  lemma FieldsText(fields: seq<Field>, close: string)
    requires fields != []
    ensures var first := Quote(fields[0].key) + ": " + Dumps(fields[0].value);
      && DumpsFields(fields) != [] && DumpsFields(fields)[0] == '"'
      && DumpsFields(fields) + close ==
         if |fields| == 1 then first + close else first + (", " + (DumpsFields(fields[1..]) + close))
  {
    QuoteHead(fields[0].key);
    hide Quote, Dumps;
    var first := Quote(fields[0].key) + ": " + Dumps(fields[0].value);
    if |fields| == 1 {
      assert first + "" == first;
    } else {
      Regroup(first, ", ", DumpsFields(fields[1..]), close);
    }
  }

  lemma {:induction false} RoundTripFields(fields: seq<Field>, rest: string)
    requires fields != [] && forall f | f in fields :: Valid(f.value)
    ensures ParseFields(DumpsFields(fields) + ("}" + rest)) == Ok(fields, rest)
    ensures DumpsFields(fields) != [] && DumpsFields(fields)[0] == '"'
    decreases fields, 0
  {
    hide ParseTrimmed, ParseFields, ParseField, Quote, Dumps, DumpsFields, Valid;
    var first := Quote(fields[0].key) + ": " + Dumps(fields[0].value);
    FieldsText(fields, "}" + rest);
    if |fields| == 1 {
      RoundTripField(fields[0], "}" + rest);
      FieldsEnd(first + ("}" + rest), fields[0], rest);
      assert fields == [fields[0]];
    } else {
      var tail := DumpsFields(fields[1..]) + ("}" + rest);
      RoundTripField(fields[0], ", " + tail);
      RoundTripFields(fields[1..], rest);
      FieldsStep(first + (", " + tail), fields[0], tail);
      assert [fields[0]] + fields[1..] == fields;
    }
  }

  lemma {:induction false} CollapseUnique(fields: seq<Field>)
    requires UniqueKeys(fields)
    ensures Collapse(fields) == fields
  {
    if fields != [] {
      var n := |fields| - 1;
      CollapseUnique(fields[..n]);
      assert fields[..n] + [fields[n]] == fields;
    }
  }

  // ----- What the parser yields

  lemma {:induction false} CollapseValid(fields: seq<Field>)
    requires forall f | f in fields :: Valid(f.value)
    ensures UniqueKeys(Collapse(fields)) && forall f | f in Collapse(fields) :: Valid(f.value)
  {
    if fields != [] {
      CollapseValid(fields[..|fields| - 1]);
    }
  }

  lemma {:induction false} ParsedValid(t: string)
    ensures ParseValue(t).Ok? ==> Valid(ParseValue(t).value)
    decreases |t|, 1
  {
    var u := TrimLeft(t);
    if u != [] && u[0] == '[' {
      ParsedItemsValid(u[1..]);
    } else if u != [] && u[0] == '{' {
      ParsedFieldsValid(u[1..]);
      var fields := ParseFields(u[1..]);
      if fields.Ok? { CollapseValid(fields.value); }
    }
  }

  lemma {:induction false} ParsedItemsValid(t: string)
    ensures ParseItems(t).Ok? ==> forall x | x in ParseItems(t).value :: Valid(x)
    decreases |t|, 2
  {
    ParsedValid(t);
    if ParseValue(t).Ok? {
      var next := TrimLeft(ParseValue(t).rest);
      if next != [] { ParsedItemsValid(next[1..]); }
    }
  }

  lemma {:induction false} ParsedFieldsValid(t: string)
    ensures ParseFields(t).Ok? ==> forall f | f in ParseFields(t).value :: Valid(f.value)
    decreases |t|, 2
  {
    var u := TrimLeft(t);
    if ParseField(t).Ok? {
      var afterKey := TrimLeft(ParseChars(u[1..]).rest);
      ParsedValid(afterKey[1..]);
      var next := TrimLeft(ParseField(t).rest);
      if next != [] { ParsedFieldsValid(next[1..]); }
    }
  }

  lemma RedactedIsNoJson()
    ensures Loads(REDACTED) == None
  {
    assert NumberLength(REDACTED[1..]) == 0;
    assert ParseValue(REDACTED[1..]) == Fail;
    assert ParseItems(REDACTED[1..]) == Fail;
    ParseArray(REDACTED);
  }

  lemma ContainerText(t: string)
    ensures Loads(t).Some? && IsContainer(Loads(t).value) ==> LooksLikeContainer(t)
  {
    var u := TrimLeft(t);
    if u != [] && u[0] != '[' && u[0] != '{' {
      assert ParseValue(t).Ok? ==> !IsContainer(ParseValue(t).value);
    }
  }

  /** Blanks, tabs and line breaks before a value do not count. */
  lemma WhiteSpaceSkipped(ch: char, t: string)
    requires ch == ' ' || ch == '\t' || ch == '\n' || ch == '\r'
    ensures ParseValue([ch] + t) == ParseValue(t)
  {
    assert ([ch] + t)[1..] == t;
  }

  /** With any digest of 64 hex digits, this printer and parser are a lawful codec. */
  lemma IsLawful(digest: Json -> string)
    requires forall v: Json :: |digest(v)| == 64
    requires forall v: Json, i: nat | i < 64 && i < |digest(v)| :: digest(v)[i] in "0123456789abcdef"
    ensures Lawful(Codec(Dumps, Loads, digest))
  {
    var c := Codec(Dumps, Loads, digest);
    assert forall ch | ch in "0123456789abcdef" :: IsHex(ch);
    forall v: Json | Valid(v) ensures c.loads(c.dumps(v)) == Some(v) {
      RoundTrip(v, "");
      assert Dumps(v) + "" == Dumps(v);
    }
    forall t: string | c.loads(t).Some? ensures Valid(c.loads(t).value) {
      ParsedValid(t);
    }
    forall t: string | c.loads(t).Some? && IsContainer(c.loads(t).value) ensures LooksLikeContainer(t) {
      ContainerText(t);
    }
    RedactedIsNoJson();
  }

  // ----- The grammar of numbers and escapes

  predicate Digits(t: string) {
    t != "" && forall ch | ch in t :: IsDigit(ch)
  }

  predicate WholeText(t: string) {
    Digits(t) && (t[0] == '0' ==> |t| == 1)
  }

  predicate FractionText(t: string) {
    t == "" || (t[0] == '.' && Digits(t[1..]))
  }

  predicate ExponentText(t: string) {
    t == "" ||
    ((t[0] == 'e' || t[0] == 'E')
     && (Digits(t[1..]) || (|t| > 1 && (t[1] == '+' || t[1] == '-') && Digits(t[2..]))))
  }

  lemma {:induction false} DigitsSkip(digits: string, rest: string)
    requires (forall ch | ch in digits :: IsDigit(ch)) && (rest != "" ==> !IsDigit(rest[0]))
    ensures SkipDigits(digits + rest) == rest
  {
    if digits == "" {
      assert digits + rest == rest;
    } else {
        assert digits[0] in digits && (digits + rest)[0] == digits[0] && (digits + rest)[1..] == digits[1..] + rest;
      DigitsSkip(digits[1..], rest);
    }
  }

  lemma DigitsCons(ch: char, more: string)
    requires IsDigit(ch) && (more == "" || Digits(more))
    ensures Digits([ch] + more)
  {
  }

  lemma SkipsOne(t: string)
    ensures t != "" && IsDigit(t[0]) ==> SkipDigits(t) == SkipDigits(t[1..])
    ensures t == "" || !IsDigit(t[0]) ==> SkipDigits(t) == t
  {
  }

  lemma Cons(t: string, a: string, b: string)
    requires t != "" && t[1..] == a + b
    ensures t == ([t[0]] + a) + b
  {
  }

  /** The digits that a text begins with. */
  lemma {:induction false} DigitsFirst(t: string) returns (digits: string)
    requires t != "" && IsDigit(t[0])
    ensures Digits(digits) && digits[0] == t[0] && t == digits + SkipDigits(t)
  {
    hide SkipDigits, IsDigit, Digits;
    var more := "";
    SkipsOne(t);
    if |t| > 1 && IsDigit(t[1]) {
      more := DigitsFirst(t[1..]);
    } else {
      SkipsOne(t[1..]);
      assert "" + t[1..] == t[1..];
    }
    digits := [t[0]] + more;
    DigitsCons(t[0], more);
    Cons(t, more, SkipDigits(t));
  }

  lemma AllDigits(t: string)
    ensures t != "" && SkipDigits(t) == [] <==> Digits(t)
  {
    assert t[..|t|] == t && t + "" == t;
    if Digits(t) { DigitsSkip(t, ""); }
  }

  lemma ExponentIs(t: string)
    ensures IsExponent(t) <==> ExponentText(t)
  {
    if t != "" {
      var signed := |t| > 1 && (t[1] == '+' || t[1] == '-');
      AllDigits(if signed then t[2..] else t[1..]);
      assert signed ==> t[1..][0] == t[1] && t[1] in t[1..];
    }
  }

  lemma ExponentNoDigit(e: string)
    requires ExponentText(e)
    ensures IsExponent(e) && (e != "" ==> !IsDigit(e[0]) && e[0] != '.')
  {
    ExponentIs(e);
  }

  lemma FirstOff(f: string, e: string)
    requires f != ""
    ensures (f + e)[0] == f[0] && (f + e)[1..] == f[1..] + e
    ensures |f| > 1 ==> (f + e)[1] == f[1] && f[1] in f[1..]
  {
    assert |f| > 1 ==> f[1..][0] == f[1];
  }

  lemma FractionFits(f: string, e: string)
    requires FractionText(f) && ExponentText(e)
    ensures IsFraction(f + e) && (f + e == "" || !IsDigit((f + e)[0]))
  {
    ExponentNoDigit(e);
    hide ExponentText, IsExponent, SkipDigits;
    if f == "" {
      assert f + e == e;
    } else {
      FirstOff(f, e);
      DigitsSkip(f[1..], e);
    }
  }

  lemma FractionParts(t: string)
    requires IsFraction(t)
    ensures t != "" && t[0] == '.' ==> |t| > 1 && IsDigit(t[1]) && ExponentText(SkipDigits(t[1..]))
    ensures t == "" || t[0] != '.' ==> ExponentText(t)
  {
    hide SkipDigits, IsExponent, ExponentText, IsDigit;
    ExponentIs(t);
    if t != "" { ExponentIs(SkipDigits(t[1..])); }
  }

  lemma FractionSplits(t: string) returns (f: string, e: string)
    requires IsFraction(t)
    ensures FractionText(f) && ExponentText(e) && t == f + e
  {
    FractionParts(t);
    hide SkipDigits, IsFraction, ExponentText, IsDigit, Digits;
    if t != "" && t[0] == '.' {
      var digits := DigitsFirst(t[1..]);
      f, e := "." + digits, SkipDigits(t[1..]);
      Cons(t, digits, e);
      assert f[1..] == digits;
    } else {
      f, e := "", t;
      assert t == "" + t;
    }
  }

  lemma UnsignedFits(w: string, f: string, e: string)
    requires WholeText(w) && FractionText(f) && ExponentText(e)
    ensures IsNumber(w + (f + e)) && (w + (f + e))[0] != '-'
  {
    var t := w + (f + e);
    FractionFits(f, e);
    assert w[0] in w && t[0] == w[0];
    if w[0] == '0' {
      assert t[1..] == f + e;
    } else {
      DigitsSkip(w, f + e);
    }
  }

  lemma UnsignedSplits(t: string) returns (w: string, f: string, e: string)
    requires IsNumber(t) && t[0] != '-'
    ensures WholeText(w) && FractionText(f) && ExponentText(e) && t == w + (f + e)
  {
    hide SkipDigits, IsFraction, FractionText, ExponentText;
    if t[0] == '0' {
      w := "0";
      f, e := FractionSplits(t[1..]);
      assert t == w + t[1..];
    } else {
      w := DigitsFirst(t);
      f, e := FractionSplits(SkipDigits(t));
    }
  }

  lemma Signed(t: string)
    ensures IsNumber("-" + t) <==> IsNumber(t) && t[0] != '-'
    ensures IsNumber(t) && t[0] == '-' ==> t == "-" + t[1..]
  {
    assert ("-" + t)[1..] == t;
  }

  /** A literal is a number exactly when it has the parts of section 6 of RFC 8259. */
  lemma NumberExactly(t: string)
    ensures IsNumber(t) <==>
      exists sign, w, f, e ::
        (sign == "" || sign == "-") && WholeText(w) && FractionText(f) && ExponentText(e) && t == sign + (w + (f + e))
  {
    if IsNumber(t) {
      var sign := if t[0] == '-' then "-" else "";
      var u := if t[0] == '-' then t[1..] else t;
      Signed(u);
      Signed(t);
      assert t == sign + u;
      var w, f, e := UnsignedSplits(u);
    }
    if sign, w, f, e :|
      (sign == "" || sign == "-") && WholeText(w) && FractionText(f) && ExponentText(e) && t == sign + (w + (f + e))
    {
      UnsignedFits(w, f, e);
      Signed(w + (f + e));
      assert sign == "" ==> t == w + (f + e);
    }
  }

  // ----- The characters of strings

  /** Every escape of section 7 of RFC 8259. */
  lemma EscapesAre(rest: string)
    ensures ParseChar("\\\"" + rest) == Ok('"', rest) && ParseChar("\\\\" + rest) == Ok('\\', rest)
    ensures ParseChar("\\/" + rest) == Ok('/', rest)
    ensures ParseChar("\\b" + rest) == Ok('\U{08}', rest) && ParseChar("\\f" + rest) == Ok('\U{0C}', rest)
    ensures ParseChar("\\n" + rest) == Ok('\n', rest) && ParseChar("\\r" + rest) == Ok('\r', rest)
    ensures ParseChar("\\t" + rest) == Ok('\t', rest) && ParseChar("\\u" + rest) == ParseHex4(rest)
  {
    hide ParseHex4;
    assert forall ch: char :: ("\\" + [ch] + rest)[2..] == rest;
  }

  function HexDigit(d: nat, upper: bool): char
    requires d < 16
  {
    if upper then "0123456789ABCDEF"[d] else "0123456789abcdef"[d]
  }

  lemma HexValueExactly(ch: char, d: nat)
    ensures HexValue(ch) == Some(d) <==> d < 16 && (ch == HexDigit(d, false) || ch == HexDigit(d, true))
  {
  }

  /** Four hex digits in any case read as the code unit, unless that is a surrogate. */
  lemma HexReads(a: nat, b: nat, d: nat, e: nat, u: (bool, bool, bool, bool), rest: string)
    requires a < 16 && b < 16 && d < 16 && e < 16
    ensures var n := ((a * 16 + b) * 16 + d) * 16 + e;
      ParseHex4([HexDigit(a, u.0), HexDigit(b, u.1), HexDigit(d, u.2), HexDigit(e, u.3)] + rest)
      == if 0xD800 <= n < 0xE000 then Fail else Ok(n as char, rest)
  {
    HexValueExactly(HexDigit(a, u.0), a);
    HexValueExactly(HexDigit(b, u.1), b);
    HexValueExactly(HexDigit(d, u.2), d);
    HexValueExactly(HexDigit(e, u.3), e);
    hide HexValue, HexDigit;
    assert ([HexDigit(a, u.0), HexDigit(b, u.1), HexDigit(d, u.2), HexDigit(e, u.3)] + rest)[4..] == rest;
  }

  // ----- The layout of Python's `json.dumps`

  lemma {:induction false} PrintedAsItIs(s: string)
    requires forall ch | ch in s :: ch >= ' ' && ch != '"' && ch != '\\'
    ensures Quote(s) == "\"" + s + "\""
  {
    if s != "" {
      assert s[0] in s && forall ch | ch in s[1..] :: ch in s;
      PrintedAsItIs(s[1..]);
      Unquote(Escape(s[1..]), s[1..]);
      assert s == [s[0]] + s[1..];
    }
  }

  lemma Unquote(a: string, b: string)
    requires "\"" + a + "\"" == "\"" + b + "\""
    ensures a == b
  {
    assert ("\"" + a + "\"")[1..|a| + 1] == a && ("\"" + b + "\"")[1..|b| + 1] == b;
    assert |"\"" + a + "\""| == |a| + 2 && |"\"" + b + "\""| == |b| + 2;
  }

  lemma TwoItems(v: Json, w: Json)
    ensures DumpsItems([v, w]) == Dumps(v) + ", " + Dumps(w)
  {
    hide Dumps;
    assert [v, w][1..] == [w];
    assert DumpsItems([w]) == Dumps(w) + "" == Dumps(w);
    assert Dumps(v) + (", " + Dumps(w)) == Dumps(v) + ", " + Dumps(w);
  }

  lemma TwoFields(f: Field, g: Field)
    ensures DumpsFields([f, g]) == DumpsFields([f]) + ", " + DumpsFields([g])
    ensures DumpsFields([f]) == Quote(f.key) + ": " + Dumps(f.value)
  {
    hide Dumps, Quote;
    var first := Quote(f.key) + ": " + Dumps(f.value);
    assert [f, g][1..] == [g];
    assert first + "" == first && first + (", " + DumpsFields([g])) == first + ", " + DumpsFields([g]);
  }

  /** Values are set apart by a comma and a blank, and a colon and a blank stand behind a key. */
  lemma Layout(v: Json, w: Json, f: Field, g: Field)
    ensures Dumps(Arr([v, w])) == "[" + (Dumps(v) + ", " + Dumps(w)) + "]"
    ensures Dumps(Obj([f, g])) ==
      "{" + ((Quote(f.key) + ": " + Dumps(f.value)) + ", " + (Quote(g.key) + ": " + Dumps(g.value))) + "}"
  {
    hide Quote, DumpsItems, DumpsFields;
    TwoItems(v, w);
    TwoFields(f, g);
    TwoFields(g, f);
  }
}
