/** What a filter text selects: the conditions that the server emits
    (`src/databridge/adapters.py`), read back as SQL and held against rows of a table. */
module FilterRows {
  import opened Wrappers
  import opened FilterText
  import opened WhereClause

  datatype Order = Less | Equal | Greater | Incomparable

  /** A row: how the value of a column compares with a literal, its text, and its instant. A missing
      value is incomparable. `parse` is `parseDateTimeBestEffort` on literals. */
  datatype Row = Row(compare: (string, string) -> Order, text: string -> string, instant: string -> int, parse: string -> int)

  predicate SameLetters(a: string, b: string) {
    |a| == |b| && forall i | 0 <= i < |a| :: Lower(a[i]) == Lower(b[i])
  }

  predicate OccursAt(needle: string, text: string, i: nat) {
    i + |needle| <= |text| && SameLetters(text[i..i + |needle|], needle)
  }

  /** The needle stands somewhere in the text, in any case of letters. */
  predicate Occurs(needle: string, text: string) {
    exists i: nat | i <= |text| :: OccursAt(needle, text, i)
  }

  /** What a row of the filter form asks for. */
  predicate RuleHolds(row: Row, rule: FilterRule) {
    var order := row.compare(rule.field, rule.value);
    match rule.op
    case "==" => order == Equal
    case "!=" => order == Less || order == Greater
    case ">=" => order == Greater || order == Equal
    case "<=" => order == Less || order == Equal
    case ">" => order == Greater
    case "<" => order == Less
    case _ => Occurs(rule.value, row.text(rule.field))
  }

  // ----- The conditions of SQL

  /** A comparison of a column, a search in its text, or a comparison of its instant. */
  datatype Test =
    | Compare(column: string, relation: string, literal: string)
    | Search(column: string, literal: string)
    | Instant(column: string, relation: string, literal: string)

  /** `positionCaseInsensitive`: where the needle is found first, counted from 1, or 0. */
  function Position(text: string, needle: string): nat {
    if |needle| > |text| then 0
    else if SameLetters(text[..|needle|], needle) then 1
    else if text == [] || Position(text[1..], needle) == 0 then 0
    else Position(text[1..], needle) + 1
  }

  predicate Relates(order: Order, relation: string) {
    match relation
    case "=" => order == Equal
    case "!=" => order == Less || order == Greater
    case ">=" => order == Greater || order == Equal
    case "<=" => order == Less || order == Equal
    case ">" => order == Greater
    case "<" => order == Less
    case _ => false
  }

  function OrderOf(a: int, b: int): Order {
    if a < b then Less else if a == b then Equal else Greater
  }

  predicate TestHolds(row: Row, test: Test) {
    match test
    case Compare(column, relation, literal) => Relates(row.compare(column, literal), relation)
    case Search(column, literal) => Position(row.text(column), literal) > 0
    case Instant(column, relation, literal) => Relates(OrderOf(row.instant(column), row.parse(literal)), relation)
  }

  // ----- Reading a condition

  const SEARCH: string := "positionCaseInsensitive(toString("
  const INSTANT: string := " parseDateTimeBestEffort('"

  /** The relation that `t` starts with, the longest one. */
  function RelationAt(t: string): string {
    if "!=" <= t || ">=" <= t || "<=" <= t then t[..2]
    else if "=" <= t || ">" <= t || "<" <= t then t[..1]
    else ""
  }

  /** A literal from behind its opening quote: its value, and the text from the closing quote on. */
  function LiteralAt(t: string): Option<(string, string)> {
    if t == [] then None
    else if t[0] == '\'' then Some(("", t))
    else if t[0] == '\\' then
      if |t| == 1 then None
      else match LiteralAt(t[2..]) case Some((v, rest)) => Some(([t[1]] + v, rest)) case None => None
    else match LiteralAt(t[1..]) case Some((v, rest)) => Some(([t[0]] + v, rest)) case None => None
  }

  function ReadSearch(t: string): Option<Test> {
    var n := Words(t);
    if !("), '" <= t[n..]) then None
    else
      match LiteralAt(t[n..][4..])
      case Some((v, rest)) => if rest == "') > 0" then Some(Search(t[..n], v)) else None
      case None => None
  }

  function ReadRelation(column: string, t: string): Option<Test> {
    var relation := RelationAt(t);
    var rest := t[|relation|..];
    if relation == "" then None
    else if " '" <= rest then
      match LiteralAt(rest[2..])
      case Some((v, after)) => if after == "'" then Some(Compare(column, relation, v)) else None
      case None => None
    else if INSTANT <= rest then
      match LiteralAt(rest[|INSTANT|..])
      case Some((v, after)) => if after == "')" then Some(Instant(column, relation, v)) else None
      case None => None
    else None
  }

  function ReadCondition(t: string): Option<Test> {
    if SEARCH <= t then ReadSearch(t[|SEARCH|..])
    else
      var n := Words(t);
      if n == 0 || !(" " <= t[n..]) then None else ReadRelation(t[..n], t[n..][1..])
  }

  /** Whether the row satisfies a condition text. */
  predicate TextHoldsOn(row: Row, t: string) {
    var test := ReadCondition(t);
    test.Some? && TestHolds(row, test.value)
  }

  // ----- What the emitted conditions read as

  /** The value of a literal: a backslash stands for the character behind it. */
  function Unescaped(v: string): string {
    if v == "" then ""
    else if v[0] == '\\' && |v| > 1 then [v[1]] + Unescaped(v[2..])
    else [v[0]] + Unescaped(v[1..])
  }

  /** The rule with the value that its text stands for. */
  function Meant(rule: FilterRule): FilterRule {
    rule.(value := Unescaped(rule.value))
  }

  lemma {:induction false} NothingEscaped(v: string)
    requires '\\' !in v
    ensures Unescaped(v) == v
  {
    if v != "" {
      assert v[0] in v;
      NothingEscaped(v[1..]);
    }
  }

  lemma {:induction false} QuotesUnescaped(v: string)
    requires '\\' !in v
    ensures Unescaped(EscapeQuotes(v)) == v
  {
    if v != "" {
      assert v[0] in v;
      QuotesUnescaped(v[1..]);
      var rest := EscapeQuotes(v[1..]);
      assert ("\\'" + rest)[2..] == rest && ([v[0]] + rest)[1..] == rest;
    }
  }

  lemma {:induction false} LiteralReads(v: string, rest: string)
    requires LiteralBody(v) && rest != [] && rest[0] == '\''
    ensures LiteralAt(v + rest) == Some((Unescaped(v), rest))
  {
    var t := v + rest;
    if v == [] {
      assert t == rest;
    } else if v[0] == '\\' {
      assert t[1] == v[1] && t[2..] == v[2..] + rest;
      LiteralReads(v[2..], rest);
    } else {
      assert t[0] == v[0] && t[1..] == v[1..] + rest;
      LiteralReads(v[1..], rest);
    }
  }

  lemma WordThen(field: string, rest: string)
    requires IsColumn(field) && rest != [] && !IsWord(rest[0])
    ensures Words(field + rest) == |field| && (field + rest)[..|field|] == field && (field + rest)[|field|..] == rest
  {
    WordsStop(field, rest);
  }

  lemma SearchReads(field: string, v: string)
    requires IsColumn(field) && LiteralBody(v)
    ensures ReadCondition(SEARCH + (field + ("), '" + (v + "') > 0")))) == Some(Search(field, Unescaped(v)))
  {
    var t2 := v + "') > 0";
    var t1 := "), '" + t2;
    var t := SEARCH + (field + t1);
    assert t[..|SEARCH|] == SEARCH && t[|SEARCH|..] == field + t1;
    WordThen(field, t1);
    assert t1[..4] == "), '" && t1[4..] == t2;
    LiteralReads(v, "') > 0");
  }

  /** No column and relation look like the search call. */
  lemma NoSearch(field: string, rest: string)
    requires IsColumn(field) && rest != [] && rest[0] == ' '
    ensures !(SEARCH <= field + rest)
  {
    var t := field + rest;
    assert t[|field|] == ' ' && forall i | 0 <= i < |SEARCH| :: SEARCH[i] != ' ';
    assert |SEARCH| > 23 && SEARCH[23] == '(' && !IsWord('(');
    assert |field| > 23 ==> field[23] in field && t[23] == field[23];
  }

  lemma RelationReads(relation: string, rest: string)
    requires relation in {"=", "!=", ">=", "<=", ">", "<"} && rest != [] && rest[0] == ' '
    ensures RelationAt(relation + rest) == relation && (relation + rest)[|relation|..] == rest
  {
    var t := relation + rest;
    assert t[|relation|] == ' ' && t[..|relation|] == relation;
    if |relation| == 1 {
      assert t[1] == ' ' && "!="[1] == ">="[1] == "<="[1] == '=';
    }
  }

  lemma RelationRead(column: string, relation: string, rest: string)
    requires relation in {"=", "!=", ">=", "<=", ">", "<"} && rest != [] && rest[0] == ' '
    ensures ReadRelation(column, relation + rest) ==
      if " '" <= rest then
        match LiteralAt(rest[2..])
        case Some((v, after)) => if after == "'" then Some(Compare(column, relation, v)) else None
        case None => None
      else if INSTANT <= rest then
        match LiteralAt(rest[|INSTANT|..])
        case Some((v, after)) => if after == "')" then Some(Instant(column, relation, v)) else None
        case None => None
      else None
  {
    hide LiteralAt;
    RelationReads(relation, rest);
  }

  lemma ColumnRead(column: string, rest: string)
    requires IsColumn(column)
    ensures ReadCondition(column + (" " + rest)) == ReadRelation(column, rest)
  {
    hide ReadRelation;
    NoSearch(column, " " + rest);
    WordThen(column, " " + rest);
    assert (" " + rest)[1..] == rest && (" " + rest)[..1] == " ";
  }

  lemma CompareReads(field: string, relation: string, v: string)
    requires IsColumn(field) && relation in {"=", "!=", ">=", "<=", ">", "<"} && LiteralBody(v)
    ensures ReadCondition(field + (" " + (relation + (" '" + (v + "'")))))
         == Some(Compare(field, relation, Unescaped(v)))
  {
    hide ReadCondition, ReadRelation;
    var rest := " '" + (v + "'");
    ColumnRead(field, relation + rest);
    RelationRead(field, relation, rest);
    assert rest[..2] == " '" && rest[2..] == v + "'";
    LiteralReads(v, "'");
  }

  lemma InstantReads(field: string, relation: string, v: string)
    requires IsColumn(field) && (relation == ">=" || relation == "<") && '\'' !in v && '\\' !in v
    ensures ReadCondition(field + (" " + (relation + (INSTANT + (v + "')"))))) == Some(Instant(field, relation, v))
  {
    hide ReadCondition, ReadRelation;
    var rest := INSTANT + (v + "')");
    ColumnRead(field, relation + rest);
    RelationRead(field, relation, rest);
    assert rest[..|INSTANT|] == INSTANT && rest[|INSTANT|..] == v + "')";
    assert rest[1] == 'p' && " '"[1] == '\'' && !(" '" <= rest);
    PlainBody(v);
    NothingEscaped(v);
    LiteralReads(v, "')");
  }

  /** A search finds its needle exactly where it occurs. */
  lemma {:induction false} PositionFinds(text: string, needle: string)
    ensures Position(text, needle) > 0 <==> Occurs(needle, text)
  {
    if |needle| <= |text| {
      assert text[0..0 + |needle|] == text[..|needle|];
      assert OccursAt(needle, text, 0) <==> SameLetters(text[..|needle|], needle);
      if text != [] && !OccursAt(needle, text, 0) {
        PositionFinds(text[1..], needle);
        OccursBehind(text, needle);
      }
    }
  }

  lemma OccursBehind(text: string, needle: string)
    requires text != [] && !OccursAt(needle, text, 0)
    ensures Occurs(needle, text) <==> Occurs(needle, text[1..])
  {
    forall i: nat | i < |text| ensures OccursAt(needle, text, i + 1) <==> OccursAt(needle, text[1..], i) {
      if i + 1 + |needle| <= |text| { assert text[1..][i..i + |needle|] == text[i + 1..i + 1 + |needle|]; }
    }
    if i: nat :| i <= |text| && OccursAt(needle, text, i) {
      assert OccursAt(needle, text, (i - 1) + 1) && OccursAt(needle, text[1..], i - 1);
    }
    if i: nat :| i <= |text[1..]| && OccursAt(needle, text[1..], i) {
      assert OccursAt(needle, text, i + 1);
    }
  }

  // ----- From the form to the rows

  /** What an atom of the clause asks of a row: for a rule, its operator on the value that its text
      stands for. */
  predicate AtomHolds(row: Row, a: Atom) {
    match a
    case Rule(rule) => RuleHolds(row, Meant(rule))
    case Anywhere(column, text) => Occurs(text, row.text(column))
    case From(column, start) => row.instant(column) >= row.parse(start)
    case Until(column, end) => row.instant(column) < row.parse(end)
  }

  ghost predicate AllHold(row: Row, atoms: seq<Atom>) {
    forall a | a in atoms :: AtomHolds(row, a)
  }

  lemma ConditionGroups(rule: FilterRule)
    requires OperatorText(rule.op)
    ensures var relation := if rule.op == "==" then "=" else rule.op;
      Condition(rule) ==
      if Same(rule.op, "contains") then SEARCH + (rule.field + ("), '" + (rule.value + "') > 0")))
      else rule.field + (" " + (relation + (" '" + (rule.value + "'"))))
  {
    hide Same;
  }

  /** The condition emitted for a rule that the server matches holds of a row exactly when the rule
      does. */
  lemma ConditionMeansRule(row: Row, rule: FilterRule)
    requires IsColumn(rule.field) && OperatorText(rule.op) && LiteralBody(rule.value)
    ensures TextHoldsOn(row, Condition(rule)) <==> RuleHolds(row, Meant(rule))
  {
    hide ReadCondition, Position, Occurs, LiteralBody, IsColumn;
    ConditionGroups(rule);
    if Same(rule.op, "contains") {
      SearchReads(rule.field, rule.value);
      PositionFinds(row.text(rule.field), Unescaped(rule.value));
    } else {
      CompareReads(rule.field, if rule.op == "==" then "=" else rule.op, rule.value);
    }
  }

  lemma BoundGroups(column: string, relation: string, time: string)
    ensures column + " " + relation + " parseDateTimeBestEffort(" + "'" + time + "'" + ")"
         == column + (" " + (relation + (INSTANT + (time + "')"))))
  {
    assert INSTANT == " parseDateTimeBestEffort(" + "'" && "')" == "'" + ")";
  }

  lemma AtomMeans(row: Row, a: Atom)
    requires Readable(a)
    ensures TextHoldsOn(row, AtomText(a)) <==> AtomHolds(row, a)
  {
    hide ReadCondition;
    match a
    case Rule(rule) => ConditionMeansRule(row, rule);
    case Anywhere(column, text) => SearchSelects(row, text, column);
    case From(column, start) =>
      BoundGroups(column, ">=", start);
      InstantReads(column, ">=", start);
    case Until(column, end) =>
      BoundGroups(column, "<", end);
      InstantReads(column, "<", end);
  }

  /** The row lies within the bounds that are set, the start included and the end not. */
  predicate InTime(row: Row, tsCol: string, start: Option<string>, end: Option<string>) {
    tsCol != "" ==>
      && (start.Some? ==> row.parse(start.value) <= row.instant(tsCol))
      && (end.Some? ==> row.instant(tsCol) < row.parse(end.value))
  }

  predicate PlainTime(time: Option<string>) {
    time.Some? ==> '\'' !in time.value && '\\' !in time.value
  }

  lemma BoundsMean(row: Row, tsCol: string, start: Option<string>, end: Option<string>)
    requires (tsCol == "" || IsColumn(tsCol)) && PlainTime(start) && PlainTime(end)
    ensures var bounds := Bounds(tsCol, start, end);
      && (forall b | b in bounds :: Readable(b) && !b.Rule?)
      && (AllHold(row, bounds) <==> InTime(row, tsCol, start, end))
  {
    var bounds := Bounds(tsCol, start, end);
    if tsCol != "" && start.Some? { assert From(tsCol, start.value) in bounds; }
    if tsCol != "" && end.Some? { assert Until(tsCol, end.value) in bounds; }
  }

  function Satisfies(row: Row): Atom -> bool {
    (a: Atom) => AtomHolds(row, a)
  }

  function SatisfiesText(row: Row): string -> bool {
    (t: string) => TextHoldsOn(row, t)
  }

  /** The chain of conditions means for a row what its rules and bounds ask. */
  lemma ChainMeans(row: Row, chain: Chain)
    requires chain.Valid() && forall a | a in chain.atoms :: Readable(a)
    ensures chain.Holds(OnAtoms(SatisfiesText(row))) <==> chain.Holds(Satisfies(row))
  {
    hide TextHoldsOn, AtomHolds, AtomText;
    forall a | a in chain.atoms ensures OnAtoms(SatisfiesText(row))(a) == Satisfies(row)(a) { AtomMeans(row, a); }
    ReadsAgree(chain, OnAtoms(SatisfiesText(row)), Satisfies(row), |chain.atoms| - 1);
  }

  lemma AtomsReadable(rules: seq<FilterRule>, logic: string, bounds: seq<Atom>)
    requires rules != [] && (forall r | r in rules :: Plain(r)) && (forall b | b in bounds :: Readable(b))
    ensures forall a | a in WhereChain(rules, logic, bounds).atoms :: Readable(a)
  {
    hide Plain, Readable;
    forall r | r in rules ensures Readable(Atom.Rule(r)) { PlainReadable(r); }
  }

  /** What the text that is sent for a rule list and bounds selects: for AND the rows within the bounds
      that satisfy all rules; for OR the rows that satisfy a rule before the last, and those within
      the bounds that satisfy the last. */
  lemma TextSelects(row: Row, rules: seq<FilterRule>, logic: string, searchColumn: string,
                    tsCol: string, start: Option<string>, end: Option<string>)
    requires rules != [] && (forall r | r in rules :: Plain(r)) && (logic == "AND" || logic == "OR")
    requires (tsCol == "" || IsColumn(tsCol)) && PlainTime(start) && PlainTime(end)
    ensures var sent := Where(FilterText.Sql(Predicate(rules, logic), searchColumn), Bounds(tsCol, start, end));
      && sent.Some?
      && (TextHolds(sent.value, SatisfiesText(row)) <==>
          if logic == "AND" then (forall r | r in rules :: RuleHolds(row, r)) && InTime(row, tsCol, start, end)
          else || (exists r :: r in rules[..|rules| - 1] && RuleHolds(row, r))
               || (RuleHolds(row, rules[|rules| - 1]) && InTime(row, tsCol, start, end)))
  {
    hide Plain, TextHolds, FilterText.Sql, Where, RuleHolds, InTime, Readable, WhereChain, Chain.Holds, SatisfiesText;
    var bounds := Bounds(tsCol, start, end);
    BoundsMean(row, tsCol, start, end);
    SentTextMeans(rules, logic, searchColumn, bounds, SatisfiesText(row));
    AtomsReadable(rules, logic, bounds);
    ChainMeans(row, WhereChain(rules, logic, bounds));
    ChainSelects(row, rules, logic, bounds);
  }

  lemma ChainSelects(row: Row, rules: seq<FilterRule>, logic: string, bounds: seq<Atom>)
    requires rules != [] && (logic == "AND" || logic == "OR")
    requires forall r | r in rules :: Plain(r)
    ensures var chain := WhereChain(rules, logic, bounds);
      var inBounds := AllHold(row, bounds);
      && chain.Valid()
      && (chain.Holds(Satisfies(row)) <==>
          if logic == "AND" then (forall r | r in rules :: RuleHolds(row, r)) && inBounds
          else || (exists r :: r in rules[..|rules| - 1] && RuleHolds(row, r))
               || (RuleHolds(row, rules[|rules| - 1]) && inBounds))
  {
    hide RuleHolds, WhereChain, Chain.Holds, Unconnected;
    forall r | r in rules ensures Meant(r) == r { NothingEscaped(r.value); }
    if logic == "AND" {
      AndMeansAll(rules, bounds, Satisfies(row));
    } else {
      OrBindsLast(rules, bounds, Satisfies(row));
    }
  }

  // ----- The full-text search

  const CLOSING: string := "') > 0"

  lemma EscapedReads(v: string)
    requires '\\' !in v
    ensures LiteralAt(EscapeQuotes(v) + CLOSING) == Some((v, CLOSING))
  {
    EscapedBody(v);
    LiteralReads(EscapeQuotes(v), CLOSING);
    QuotesUnescaped(v);
  }

  /** The first character of a text whose quotes are escaped. */
  lemma EscapedHead(v: string)
    requires v != []
    ensures var t := EscapeQuotes(v) + CLOSING;
      var rest := EscapeQuotes(v[1..]) + CLOSING;
      && (v[0] == '\'' ==> |t| > 2 && t[0] == '\\' && t[1] == '\'' && t[2..] == rest)
      && (v[0] != '\'' ==> t[0] == v[0] && t[1..] == rest)
  {
    var rest := EscapeQuotes(v[1..]) + CLOSING;
    if v[0] == '\'' {
      assert EscapeQuotes(v) + CLOSING == "\\'" + rest;
    } else {
      assert EscapeQuotes(v) + CLOSING == [v[0]] + rest;
    }
  }

  lemma ClosingHoldsNoLiteral()
    ensures LiteralAt(CLOSING[1..]) == None
  {
    var t := CLOSING[1..];
    assert t == ") > 0" && t[1..] == " > 0" && t[1..][1..] == "> 0" && t[1..][1..][1..] == " 0";
    assert t[1..][1..][1..][1..] == "0" && t[1..][1..][1..][1..][1..] == "";
    assert LiteralAt("0") == None && LiteralAt(" 0") == None && LiteralAt("> 0") == None && LiteralAt(" > 0") == None;
  }

  /** A literal that ends where the text does is no longer than the text, and shorter when the text
      holds a backslash. */
  lemma {:induction false} EscapedShrinks(v: string, w: string)
    requires LiteralAt(EscapeQuotes(v) + CLOSING) == Some((w, CLOSING))
    ensures |w| <= |v| && ('\\' in v ==> |w| < |v|)
  {
    if v == [] {
      assert EscapeQuotes(v) + CLOSING == CLOSING;
    } else {
      EscapedHead(v);
      if v[0] != '\\' {
        EscapedShrinks(v[1..], w[1..]);
        assert v == [v[0]] + v[1..];
      } else {
        BackslashSwallows(v, w);
        EscapedShrinks(v[2..], w[1..]);
      }
    }
  }

  /** A backslash takes the next character with it, which is no quote then. */
  lemma BackslashSwallows(v: string, w: string)
    requires v != [] && v[0] == '\\' && LiteralAt(EscapeQuotes(v) + CLOSING) == Some((w, CLOSING))
    ensures |v| > 1 && w != [] && LiteralAt(EscapeQuotes(v[2..]) + CLOSING) == Some((w[1..], CLOSING))
  {
    EscapedHead(v);
    var rest := EscapeQuotes(v[1..]) + CLOSING;
    if v[1..] == [] {
      assert rest == CLOSING;
      ClosingHoldsNoLiteral();
    } else {
      EscapedHead(v[1..]);
      assert v[1..][1..] == v[2..];
      var _ := rest[1..];
    }
  }

  /** Text that is no rule list becomes a search for exactly that text if and only if it holds no
      backslash: quotes are escaped, backslashes are not. */
  lemma SearchExactly(text: string, column: string)
    requires IsColumn(column)
    ensures ReadCondition(FilterText.Search(text, column)) == Some(Test.Search(column, text)) <==> '\\' !in text
  {
    SearchIs(text, column);
    if '\\' !in text {
      EscapedReads(text);
    } else if ReadCondition(FilterText.Search(text, column)) == Some(Test.Search(column, text)) {
      EscapedShrinks(text, text);
    }
  }

  lemma SearchIs(text: string, column: string)
    requires IsColumn(column)
    ensures ReadCondition(FilterText.Search(text, column)) ==
      match LiteralAt(EscapeQuotes(text) + CLOSING)
      case Some((v, rest)) => if rest == CLOSING then Some(Test.Search(column, v)) else None
      case None => None
  {
    hide LiteralAt;
    var t2 := EscapeQuotes(text) + CLOSING;
    var t1 := "), '" + t2;
    assert FilterText.Search(text, column) == SEARCH + (column + t1);
    assert (SEARCH + (column + t1))[|SEARCH|..] == column + t1;
    WordThen(column, t1);
    assert t1[..4] == "), '" && t1[4..] == t2;
  }

  /** The rows that such a search selects. */
  lemma SearchSelects(row: Row, text: string, column: string)
    requires IsColumn(column) && '\\' !in text
    ensures TextHoldsOn(row, FilterText.Search(text, column)) <==> Occurs(text, row.text(column))
  {
    SearchExactly(text, column);
    PositionFinds(row.text(column), text);
  }

  // ----- Any text

  /** The row satisfies all rules of a longest run, from the `i`-th to the `j`-th, that is joined by AND. */
  ghost predicate RunSelects(row: Row, rules: seq<FilterRule>, keywords: seq<string>, i: nat, j: nat)
    requires |rules| == |keywords| + 1
  {
    && i <= j < |rules|
    && (i > 0 ==> !Joins(keywords[i - 1])) && (j < |keywords| ==> !Joins(keywords[j]))
    && (forall k | i <= k < j :: Joins(keywords[k]))
    && (forall k | i <= k <= j :: RuleHolds(row, Meant(rules[k])))
  }

  lemma RunInFront(row: Row, rules: seq<FilterRule>, bounds: seq<Atom>, chain: Chain, i: nat, j: nat)
    requires rules != [] && chain.Valid() && chain.atoms == RuleAtoms(rules) + bounds && j < |rules| - 1
    ensures RunHolds(chain, Satisfies(row), i, j, |chain.atoms| - 1)
       <==> RunSelects(row, rules, chain.connectives[..|rules| - 1], i, j)
  {
    hide RuleHolds, Joins, KeywordText;
    assert forall k | 0 <= k < |rules| :: chain.atoms[k] == Atom.Rule(rules[k]);
  }

  lemma RunToTheEnd(row: Row, rules: seq<FilterRule>, bounds: seq<Atom>, chain: Chain, i: nat, j: nat)
    requires rules != [] && chain.Valid() && chain.atoms == RuleAtoms(rules) + bounds
    requires |rules| - 1 <= j
    requires forall k | |rules| - 1 <= k < |chain.connectives| :: Joins(chain.connectives[k])
    ensures RunHolds(chain, Satisfies(row), i, j, |chain.atoms| - 1) <==>
      && j == |chain.atoms| - 1
      && RunSelects(row, rules, chain.connectives[..|rules| - 1], i, |rules| - 1)
      && AllHold(row, bounds)
  {
    hide RuleHolds, Joins, KeywordText;
    var n := |rules|;
    assert forall k | 0 <= k < n :: chain.atoms[k] == Atom.Rule(rules[k]);
    assert forall k | 0 <= k < |bounds| :: chain.atoms[n + k] == bounds[k];
    assert forall k | n <= k < |chain.atoms| :: chain.atoms[k] == bounds[k - n];
  }

  /** What the text that is sent selects for an expression typed by hand, whatever it is. When it
      matches rules, it is the rows that satisfy all rules of some run joined by AND, and the bounds
      too when the run is the last one; otherwise the rows within the bounds in whose search column the
      expression stands, as long as it holds no backslash. */
  lemma TypedTextSelects(row: Row, expr: string, searchColumn: string,
                         tsCol: string, start: Option<string>, end: Option<string>)
    requires Strip(expr) != "" && IsColumn(searchColumn)
    requires (tsCol == "" || IsColumn(tsCol)) && PlainTime(start) && PlainTime(end)
    requires MatchRules(Tokenize(Strip(expr)).0).None? ==> '\\' !in expr
    ensures var (pieces, keywords) := Tokenize(Strip(expr));
      var sent := Where(FilterText.Sql(expr, searchColumn), Bounds(tsCol, start, end));
      && sent.Some?
      && (TextHolds(sent.value, SatisfiesText(row)) <==>
          match MatchRules(pieces)
          case Some(rules) =>
            exists i: nat, j: nat ::
              RunSelects(row, rules, keywords, i, j) && (j == |keywords| ==> InTime(row, tsCol, start, end))
          case None => Occurs(Strip(expr), row.text(searchColumn)) && InTime(row, tsCol, start, end))
  {
    hide Tokenize, MatchRules, Readable, TextHolds, FilterText.Sql, Where, InTime, AtomHolds, Strip, RunSelects, TypedChain;
    hide Chain.Holds, SatisfiesText, Occurs;
    var (text, bounds) := (Strip(expr), Bounds(tsCol, start, end));
    BoundsMean(row, tsCol, start, end);
    StripKeeps(expr);
    TypedTextMeans(expr, searchColumn, bounds, SatisfiesText(row));
    TypedReadable(text, searchColumn, bounds);
    ChainMeans(row, TypedChain(text, searchColumn, bounds));
    TypedHolds(row, text, searchColumn, bounds);
  }

  lemma {:induction false} TrimKeeps(t: string)
    ensures TrimRight(t) <= t
  {
    if t != [] && IsSpace(t[|t| - 1]) { TrimKeeps(t[..|t| - 1]); }
  }

  lemma StripKeeps(t: string)
    ensures forall ch | ch in Strip(t) :: ch in t
  {
    TrimKeeps(SkipSpaces(t));
    assert forall ch | ch in Strip(t) :: ch in SkipSpaces(t);
  }

  /** The rules of a typed text, with the bounds behind them. */
  ghost predicate Shows(chain: Chain, rules: seq<FilterRule>, keywords: seq<string>, bounds: seq<Atom>) {
    && |rules| == |keywords| + 1 && chain.Valid()
    && chain.atoms == RuleAtoms(rules) + bounds && chain.connectives == keywords + Repeat("AND", |bounds|)
  }

  /** The runs of the chain are those of the rules, the last one with the bounds behind it. */
  lemma RunsAre(row: Row, rules: seq<FilterRule>, keywords: seq<string>, bounds: seq<Atom>, chain: Chain, i: nat, j: nat)
    requires Shows(chain, rules, keywords, bounds)
    ensures RunHolds(chain, Satisfies(row), i, j, |chain.atoms| - 1) <==>
      if j < |keywords| then RunSelects(row, rules, keywords, i, j)
      else j == |chain.atoms| - 1 && RunSelects(row, rules, keywords, i, |keywords|) && AllHold(row, bounds)
  {
    hide RunHolds, RunSelects, AtomHolds, Chain.Valid, Joins;
    assert chain.connectives[..|rules| - 1] == keywords;
    AndsJoin(keywords, |bounds|, chain.connectives);
    if j < |keywords| {
      RunInFront(row, rules, bounds, chain, i, j);
    } else {
      RunToTheEnd(row, rules, bounds, chain, i, j);
    }
  }

  lemma RuleRuns(row: Row, rules: seq<FilterRule>, keywords: seq<string>, bounds: seq<Atom>, chain: Chain)
    requires Shows(chain, rules, keywords, bounds)
    ensures chain.Holds(Satisfies(row)) <==>
      exists i: nat, j: nat :: RunSelects(row, rules, keywords, i, j) && (j == |keywords| ==> AllHold(row, bounds))
  {
    assert chain.Valid() && |chain.atoms| > 0;
    hide RunHolds, RunSelects, AllHold, Chain.Valid, Chain.Holds;
    var n := |chain.atoms| - 1;
    ChainHoldsExactly(chain, Satisfies(row));
    if i: nat, j: nat :| RunHolds(chain, Satisfies(row), i, j, n) {
      RunsAre(row, rules, keywords, bounds, chain, i, j);
      assert RunSelects(row, rules, keywords, i, if j < |keywords| then j else |keywords|);
    }
    if i: nat, j: nat :| RunSelects(row, rules, keywords, i, j) && (j == |keywords| ==> AllHold(row, bounds)) {
      RunsEnd(row, rules, keywords);
      var last := if j < |keywords| then j else n;
      RunsAre(row, rules, keywords, bounds, chain, i, last);
      assert RunHolds(chain, Satisfies(row), i, last, n);
    }
  }

  lemma RunsEnd(row: Row, rules: seq<FilterRule>, keywords: seq<string>)
    requires |rules| == |keywords| + 1
    ensures forall i: nat, j: nat | RunSelects(row, rules, keywords, i, j) :: j <= |keywords|
  {
  }

  lemma AndsJoin(keywords: seq<string>, n: nat, all: seq<string>)
    requires all == keywords + Repeat("AND", n)
    ensures forall k | |keywords| <= k < |all| :: Joins(all[k])
  {
    hide Joins;
    KeywordsAre();
    forall k | |keywords| <= k < |all| ensures Joins(all[k]) { RepeatAt("AND", n, k - |keywords|); }
  }

  lemma AndChain(row: Row, chain: Chain)
    requires chain.Valid() && chain.connectives == Repeat("AND", |chain.atoms| - 1)
    ensures chain.Holds(Satisfies(row)) <==> AllHold(row, chain.atoms)
  {
    hide Joins, KeywordText, AtomHolds;
    var n := |chain.atoms| - 1;
    AndsJoin([], n, chain.connectives);
    ReadsAnd(chain, Satisfies(row), n);
  }

  lemma SearchHolds(row: Row, text: string, searchColumn: string, bounds: seq<Atom>, chain: Chain)
    requires chain.Valid() && chain.atoms == [Anywhere(searchColumn, text)] + bounds
    requires chain.connectives == Repeat("AND", |bounds|)
    ensures chain.Holds(Satisfies(row)) <==> Occurs(text, row.text(searchColumn)) && AllHold(row, bounds)
  {
    hide Occurs, Chain.Holds, Chain.Valid, Repeat, AllHold;
    assert |chain.atoms| - 1 == |bounds|;
    AndChain(row, chain);
    AllAndOne(row, Anywhere(searchColumn, text), bounds);
  }

  lemma AllAndOne(row: Row, a: Atom, rest: seq<Atom>)
    ensures AllHold(row, [a] + rest) <==> AtomHolds(row, a) && AllHold(row, rest)
  {
    hide AtomHolds;
    var all := [a] + rest;
    assert all[0] == a && all[1..] == rest;
    assert forall b :: b in all <==> b == a || b in rest;
  }

  lemma TypedHolds(row: Row, text: string, searchColumn: string, bounds: seq<Atom>)
    ensures var (pieces, keywords) := Tokenize(text);
      var inBounds := AllHold(row, bounds);
      TypedChain(text, searchColumn, bounds).Holds(Satisfies(row)) <==>
        match MatchRules(pieces)
        case Some(rules) =>
          exists i: nat, j: nat :: RunSelects(row, rules, keywords, i, j) && (j == |keywords| ==> inBounds)
        case None => Occurs(text, row.text(searchColumn)) && inBounds
  {
    hide Tokenize, MatchRules, RunSelects, AtomHolds, Occurs, Chain.Holds;
    var (pieces, keywords) := Tokenize(text);
    var chain := TypedChain(text, searchColumn, bounds);
    match MatchRules(pieces)
    case Some(rules) => RuleRuns(row, rules, keywords, bounds, chain);
    case None => SearchHolds(row, text, searchColumn, bounds, chain);
  }

  /** A blank expression selects the rows within the bounds. */
  lemma BlankTextSelects(row: Row, expr: string, searchColumn: string,
                         tsCol: string, start: Option<string>, end: Option<string>)
    requires Strip(expr) == ""
    requires (tsCol == "" || IsColumn(tsCol)) && PlainTime(start) && PlainTime(end)
    ensures var sent := Where(FilterText.Sql(expr, searchColumn), Bounds(tsCol, start, end));
      match sent
      case None => InTime(row, tsCol, start, end)
      case Some(text) => TextHolds(text, SatisfiesText(row)) <==> InTime(row, tsCol, start, end)
  {
    hide Readable, TextHolds, FilterText.Sql, Where, InTime, AtomHolds, Strip, Chain.Holds, SatisfiesText;
    var bounds := Bounds(tsCol, start, end);
    BoundsMean(row, tsCol, start, end);
    BlankIsFlat(expr, searchColumn, bounds);
    if bounds != [] {
      var chain := BoundChain(bounds);
      TextMeansChain(chain, SatisfiesText(row));
      ChainMeans(row, chain);
      AndChain(row, chain);
    }
  }
}
