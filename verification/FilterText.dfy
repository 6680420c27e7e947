/** The filter text between the browser, which prints a rule list
    (`src/databridge/static/browser.js`), and the server, which parses the text again and emits a
    SQL condition (`src/databridge/adapters.py`). Character classes are those of ASCII. */
module FilterText {
  import opened Wrappers

  /** A row of the filter form; `op` is one of `OPERATORS`. */
  datatype FilterRule = FilterRule(field: string, op: string, value: string)

  const OPERATORS: set<string> := {"==", "!=", ">=", "<=", ">", "<", "contains"}

  // ----- Characters

  /** `\s` */
  predicate IsSpace(ch: char) {
    ch in " \t\n\r\U{0B}\U{0C}"
  }

  /** `\w` */
  predicate IsWord(ch: char) {
    'a' <= ch <= 'z' || 'A' <= ch <= 'Z' || '0' <= ch <= '9' || ch == '_'
  }

  function Lower(ch: char): char {
    if 'A' <= ch <= 'Z' then ch - 'A' + 'a' else ch
  }

  /** Equality under `re.IGNORECASE` with a lower-case word. */
  predicate Same(t: string, word: string) {
    |t| == |word| && forall i | 0 <= i < |t| :: Lower(t[i]) == word[i]
  }

  /** The number of leading characters in the class. */
  function Spaces(t: string): (n: nat)
    ensures n <= |t| && (n < |t| ==> !IsSpace(t[n]))
  {
    if t == [] || !IsSpace(t[0]) then 0 else 1 + Spaces(t[1..])
  }

  function Words(t: string): (n: nat)
    ensures n <= |t| && (n < |t| ==> !IsWord(t[n]))
  {
    if t == [] || !IsWord(t[0]) then 0 else 1 + Words(t[1..])
  }

  function SkipSpaces(t: string): string {
    t[Spaces(t)..]
  }

  function TrimRight(t: string): string {
    if t != [] && IsSpace(t[|t| - 1]) then TrimRight(t[..|t| - 1]) else t
  }

  /** `text.strip()` */
  function Strip(t: string): string {
    TrimRight(SkipSpaces(t))
  }

  // ----- Splitting at the connectives

  /** The length of the keyword AND or OR that `t` starts with. */
  function KeywordLength(t: string): (n: nat)
    ensures n <= |t| && n <= 3
  {
    if |t| >= 3 && Same(t[..3], "and") then 3 else if |t| >= 2 && Same(t[..2], "or") then 2 else 0
  }

  /** A match of `\s+(AND|OR)\s+` at the start of the text: the keyword and the length matched. */
  datatype Connective = Connective(keyword: string, length: nat)

  function ConnectiveAt(t: string): (r: Option<Connective>)
    ensures r.Some? ==> 0 < r.value.length <= |t|
  {
    var a := Spaces(t);
    var k := KeywordLength(t[a..]);
    var b := Spaces(t[a + k..]);
    if a > 0 && k > 0 && b > 0 then Some(Connective(t[a..a + k], a + k + b)) else None
  }

  /** `re.split` and `re.findall` with that pattern: the pieces, and the keywords between them. */
  function Tokenize(t: string): (r: (seq<string>, seq<string>))
    ensures |r.0| == |r.1| + 1
    decreases |t|
  {
    if t == [] then ([""], [])
    else
      match ConnectiveAt(t)
      case Some(m) =>
        var (pieces, keywords) := Tokenize(t[m.length..]);
        ([""] + pieces, [m.keyword] + keywords)
      case None =>
        var (pieces, keywords) := Tokenize(t[1..]);
        ([[t[0]] + pieces[0]] + pieces[1..], keywords)
  }

  // ----- Matching one rule

  /** The operator that `t` starts with. */
  function OperatorAt(t: string): (r: Option<string>)
    ensures r.Some? ==> r.value <= t && r.value != []
  {
    if "==" <= t || "!=" <= t || ">=" <= t || "<=" <= t then Some(t[..2])
    else if ">" <= t || "<" <= t then Some(t[..1])
    else if |t| >= 8 && Same(t[..8], "contains") then Some(t[..8])
    else None
  }

  /** `((?:[^'\\]|\\.)*)'` up to the end of the text: what the group holds. */
  function QuotedRest(t: string): Option<string>
    decreases |t|
  {
    if t == "'" then Some("")
    else if t == [] || t[0] == '\'' then None
    else if t[0] == '\\' then
      if |t| == 1 || t[1] == '\n' then None
      else match QuotedRest(t[2..]) case Some(v) => Some(t[..2] + v) case None => None
    else match QuotedRest(t[1..]) case Some(v) => Some([t[0]] + v) case None => None
  }

  function QuotedValue(t: string): Option<string> {
    if t != [] && t[0] == '\'' then QuotedRest(t[1..]) else None
  }

  /** `_RULE_RE.fullmatch`. The field is the longest word that lets the rest match; the only
      shorter one leaves behind the operator `contains` written without a space before it. */
  function MatchRule(t: string): Option<FilterRule> {
    var n := Words(t);
    if n == 0 then None
    else
      match WithOperator(t[..n], SkipSpaces(t[n..]))
      case Some(rule) => Some(rule)
      case None =>
        if n > 8 && Same(t[n - 8..n], "contains") then
          match QuotedValue(SkipSpaces(t[n..]))
          case Some(v) => Some(FilterRule(t[..n - 8], t[n - 8..n], v))
          case None => None
        else None
  }

  function WithOperator(field: string, t: string): Option<FilterRule> {
    match OperatorAt(t)
    case None => None
    case Some(op) =>
      match QuotedValue(SkipSpaces(t[|op|..]))
      case Some(v) => Some(FilterRule(field, op, v))
      case None => None
  }

  // ----- Emitting SQL

  function SqlOperator(op: string): string {
    if op == "==" then "=" else op
  }

  /** The condition for one matched rule. */
  function Condition(rule: FilterRule): string {
    if Same(rule.op, "contains")
    then "positionCaseInsensitive(toString(" + rule.field + "), '" + rule.value + "') > 0"
    else rule.field + " " + SqlOperator(rule.op) + " '" + rule.value + "'"
  }

  function EscapeQuotes(t: string): string {
    if t == [] then "" else (if t[0] == '\'' then "\\'" else [t[0]]) + EscapeQuotes(t[1..])
  }

  /** The full-text search that stands in for an expression which is no rule list. */
  function Search(expr: string, searchColumn: string): string {
    "positionCaseInsensitive(toString(" + searchColumn + "), '" + EscapeQuotes(expr) + "') > 0"
  }

  /** `parts[0] c[0] parts[1] c[1] ...`, blanks between. */
  function Interleave(parts: seq<string>, connectives: seq<string>): string
    requires |parts| == |connectives| + 1
  {
    var n := |connectives|;
    if n == 0 then parts[0]
    else Interleave(parts[..n], connectives[..n - 1]) + " " + connectives[n - 1] + " " + parts[n]
  }

  /** The rules that the pieces match, or None when one does not match. */
  function MatchRules(pieces: seq<string>): (r: Option<seq<FilterRule>>)
    ensures r.Some? ==> |r.value| == |pieces|
  {
    if pieces == [] then Some([])
    else
      match (MatchRules(pieces[..|pieces| - 1]), MatchRule(Strip(pieces[|pieces| - 1])))
      case (Some(rules), Some(rule)) => Some(rules + [rule])
      case _ => None
  }

  function Conditions(rules: seq<FilterRule>): (parts: seq<string>)
    ensures |parts| == |rules|
  {
    seq(|rules|, i requires 0 <= i < |rules| => Condition(rules[i]))
  }

  /** `_query_to_sql`; None when there is nothing to filter by. */
  function Sql(expr: string, searchColumn: string): Option<string> {
    var text := Strip(expr);
    var (pieces, keywords) := Tokenize(text);
    if text == [] then None
    else
      match MatchRules(pieces)
      case Some(rules) => Some(Interleave(Conditions(rules), keywords))
      case None => Some(Search(text, searchColumn))
  }

  method QueryToSql(expr: string, searchColumn: string) returns (sql: Option<string>)
    ensures sql == Sql(expr, searchColumn)
  {
    var text := Strip(expr);
    if text == [] { return None; }
    var tokens := Tokenize(text);
    var parts := MatchPieces(tokens.0);
    if parts.None? { return Some(Search(text, searchColumn)); }
    var joined := Assemble(parts.value, tokens.1);
    return Some(joined);
  }

  /** The first loop: a piece that matches no rule ends it. */
  method MatchPieces(pieces: seq<string>) returns (parts: Option<seq<string>>)
    ensures parts == match MatchRules(pieces) case Some(rules) => Some(Conditions(rules)) case None => None
  {
    hide MatchRule, Condition, Strip;
    var sqlParts: seq<string> := [];
    ghost var rules: seq<FilterRule> := [];
    for i := 0 to |pieces|
      invariant MatchRules(pieces[..i]) == Some(rules) && sqlParts == Conditions(rules)
    {
      assert pieces[..i + 1][..i] == pieces[..i];
      match MatchRule(Strip(pieces[i])) {
        case None =>
          NoRule(pieces, i);
          return None;
        case Some(rule) =>
          sqlParts := sqlParts + [Condition(rule)];
          rules := rules + [rule];
      }
    }
    assert pieces[..|pieces|] == pieces;
    return Some(sqlParts);
  }

  /** The second loop. */
  method Assemble(parts: seq<string>, keywords: seq<string>) returns (result: string)
    requires |parts| == |keywords| + 1
    ensures result == Interleave(parts, keywords)
  {
    result := parts[0];
    for i := 0 to |keywords|
      invariant result == Interleave(parts[..i + 1], keywords[..i])
    {
      assert parts[..i + 2][..i + 1] == parts[..i + 1] && keywords[..i + 1][..i] == keywords[..i];
      result := result + " " + keywords[i] + " " + parts[i + 1];
    }
    assert parts[..|parts|] == parts && keywords[..|keywords|] == keywords;
  }

  lemma {:induction false} NoRule(pieces: seq<string>, i: nat)
    requires i < |pieces| && MatchRule(Strip(pieces[i])) == None
    ensures MatchRules(pieces) == None
  {
    if i < |pieces| - 1 { NoRule(pieces[..|pieces| - 1], i); }
  }

  // ----- Printing

  function Print(rule: FilterRule): string {
    rule.field + " " + rule.op + " '" + rule.value + "'"
  }

  /** `parts.join(sep)` */
  function JoinWith(parts: seq<string>, sep: string): string
    requires parts != []
  {
    if |parts| == 1 then parts[0] else parts[0] + sep + JoinWith(parts[1..], sep)
  }

  function PrintAll(rules: seq<FilterRule>): (parts: seq<string>)
    ensures |parts| == |rules|
  {
    seq(|rules|, i requires 0 <= i < |rules| => Print(rules[i]))
  }

  /** The text that `syncPredicateFromRules` joins, for rules that are filled in. */
  function Predicate(rules: seq<FilterRule>, logic: string): string
    requires rules != []
  {
    JoinWith(PrintAll(rules), " " + logic + " ")
  }

  // ----- What the server recovers

  /** No connective, with white space on both sides, anywhere in the value. */
  ghost predicate Unconnected(t: string) {
    forall i | 0 <= i <= |t| :: ConnectiveAt(t[i..]) == None
  }

  ghost predicate Plain(rule: FilterRule) {
    && rule.field != "" && (forall ch | ch in rule.field :: IsWord(ch))
    && rule.op in OPERATORS
    && rule.value != "" && '\'' !in rule.value && '\\' !in rule.value
    && Unconnected(rule.value)
  }

  lemma {:induction false} SpacesStop(u: string, tail: string)
    requires tail != [] && !IsSpace(tail[0])
    ensures Spaces(u + tail) == Spaces(u)
  {
    if u != [] {
      assert (u + tail)[1..] == u[1..] + tail;
      SpacesStop(u[1..], tail);
    } else {
      assert u + tail == tail;
    }
  }

  lemma {:induction false} WordsStop(w: string, tail: string)
    requires (forall ch | ch in w :: IsWord(ch)) && (tail != [] ==> !IsWord(tail[0]))
    ensures Words(w + tail) == |w|
  {
    if w != [] {
      assert (w + tail)[1..] == w[1..] + tail;
      WordsStop(w[1..], tail);
    } else {
      assert w + tail == tail;
    }
  }

  /** A keyword does not reach across a quote. */
  lemma KeywordStops(u: string, tail: string)
    requires tail != [] && tail[0] == '\''
    ensures KeywordLength(u + tail) == KeywordLength(u)
  {
    var t := u + tail;
    assert |u| < |t| && t[|u|] == '\'' && Lower('\'') == '\'';
    if |u| >= 3 {
      assert t[..3] == u[..3] && t[..2] == u[..2];
    } else if |u| == 2 {
      assert t[..2] == u[..2];
      assert |t| >= 3 ==> t[..3][2] == '\'';
    } else {
      assert |t| >= 3 ==> t[..3][|u|] == '\'';
      assert |t| >= 2 ==> t[..2][|u|] == '\'';
    }
  }

  lemma SuffixOf(v: string, tail: string, n: nat)
    requires n <= |v|
    ensures (v + tail)[n..] == v[n..] + tail
  {
  }

  /** A connective does not reach across a quote. */
  lemma ConnectiveStops(v: string, tail: string)
    requires tail != [] && tail[0] == '\'' && ConnectiveAt(v) == None
    ensures ConnectiveAt(v + tail) == None
  {
    var a := Spaces(v);
    var k := KeywordLength(v[a..]);
    SpacesStop(v, tail);
    SuffixOf(v, tail, a);
    KeywordStops(v[a..], tail);
    SuffixOf(v, tail, a + k);
    SpacesStop(v[a + k..], tail);
  }

  function Prepend(p: string, r: (seq<string>, seq<string>)): (seq<string>, seq<string>)
    requires r.0 != []
  {
    ([p + r.0[0]] + r.0[1..], r.1)
  }

  /** No connective starts in `p` when `tail` follows it. */
  ghost predicate Quiet(p: string, tail: string) {
    forall i | 0 <= i < |p| :: ConnectiveAt(p[i..] + tail) == None
  }

  lemma TokenizeStep(t: string)
    requires t != [] && ConnectiveAt(t) == None
    ensures Tokenize(t) == Prepend([t[0]], Tokenize(t[1..]))
  {
  }

  lemma PrependTwice(p: string, q: string, r: (seq<string>, seq<string>))
    requires r.0 != []
    ensures Prepend(p, Prepend(q, r)) == Prepend(p + q, r)
  {
    assert p + (q + r.0[0]) == (p + q) + r.0[0];
  }

  lemma QuietTail(p: string, tail: string)
    requires Quiet(p, tail) && p != []
    ensures ConnectiveAt(p + tail) == None && Quiet(p[1..], tail)
  {
    assert p[0..] == p;
    forall i | 0 <= i < |p[1..]| ensures ConnectiveAt(p[1..][i..] + tail) == None {
      assert p[1..][i..] == p[i + 1..];
    }
  }

  /** Text in which no connective starts goes to the first piece whole. */
  lemma {:induction false} TokenizeSkip(p: string, tail: string)
    requires Quiet(p, tail)
    ensures Tokenize(p + tail) == Prepend(p, Tokenize(tail))
  {
    if p == [] {
      var pieces := Tokenize(tail).0;
      assert p + tail == tail && "" + pieces[0] == pieces[0] && [pieces[0]] + pieces[1..] == pieces;
    } else {
      QuietTail(p, tail);
      TokenizeStep(p + tail);
      assert (p + tail)[1..] == p[1..] + tail;
      TokenizeSkip(p[1..], tail);
      PrependTwice([p[0]], p[1..], Tokenize(tail));
      assert [p[0]] + p[1..] == p;
    }
  }

  lemma QuietConcat(p: string, q: string, tail: string)
    requires Quiet(p, q + tail) && Quiet(q, tail)
    ensures Quiet(p + q, tail)
  {
    forall i | 0 <= i < |p + q| ensures ConnectiveAt((p + q)[i..] + tail) == None {
      if i < |p| {
        assert (p + q)[i..] + tail == p[i..] + (q + tail);
      } else {
        assert (p + q)[i..] == q[i - |p|..];
      }
    }
  }

  lemma QuietUnspaced(p: string, tail: string)
    requires forall ch | ch in p :: !IsSpace(ch)
    ensures Quiet(p, tail)
  {
    forall i | 0 <= i < |p| ensures ConnectiveAt(p[i..] + tail) == None {
      assert (p[i..] + tail)[0] == p[i] && p[i] in p;
    }
  }

  /** One blank, before something that starts no keyword. */
  lemma QuietBlank(u: string)
    requires u != [] && !IsSpace(u[0]) && Lower(u[0]) != 'a' && Lower(u[0]) != 'o'
    ensures Quiet(" ", u)
  {
    assert (" " + u)[1..] == u && " "[0..] == " ";
    assert Spaces(" " + u) == 1;
    assert KeywordLength(u) == 0;
  }

  lemma QuietValue(v: string, tail: string)
    requires Unconnected(v) && tail != [] && tail[0] == '\''
    ensures Quiet(v, tail)
  {
    forall i | 0 <= i < |v| ensures ConnectiveAt(v[i..] + tail) == None {
      ConnectiveStops(v[i..], tail);
    }
  }

  /** In a printed rule no connective starts, whatever follows it. */
  lemma RuleIsOnePiece(rule: FilterRule, tail: string)
    requires Plain(rule)
    ensures Quiet(Print(rule), tail)
  {
    var quoted := "'" + rule.value + "'";
    var t1 := "'" + tail;
    var t2 := rule.value + t1;
    var t3 := "'" + t2;
    var t4 := " " + t3;
    var t5 := rule.op + t4;
    OperatorUnspaced(rule.op);
    forall ch | ch in rule.field ensures !IsSpace(ch) { WordIsNoSpace(ch); }
    QuietUnspaced("'", tail);
    QuietValue(rule.value, t1);
    QuietConcat(rule.value, "'", tail);
    QuietUnspaced("'", rule.value + "'" + tail);
    assert rule.value + "'" + tail == t2;
    QuietConcat("'", rule.value + "'", tail);
    assert "'" + (rule.value + "'") + tail == t3;
    QuietBlank(t3);
    QuietConcat(" ", "'" + (rule.value + "'"), tail);
    var rest := " " + ("'" + (rule.value + "'"));
    QuietUnspaced(rule.op, rest + tail);
    QuietConcat(rule.op, rest, tail);
    assert (rule.op + rest) + tail == t5;
    QuietBlank(t5);
    QuietConcat(" ", rule.op + rest, tail);
    QuietUnspaced(rule.field, " " + (rule.op + rest) + tail);
    QuietConcat(rule.field, " " + (rule.op + rest), tail);
    assert Print(rule) == rule.field + (" " + (rule.op + rest));
  }

  lemma OperatorUnspaced(op: string)
    requires op in OPERATORS
    ensures op != [] && (forall ch | ch in op :: !IsSpace(ch)) && Lower(op[0]) != 'a' && Lower(op[0]) != 'o'
    ensures !IsWord(op[0]) || op == "contains"
  {
  }

  lemma WordIsNoSpace(ch: char)
    requires IsWord(ch)
    ensures !IsSpace(ch)
  {
  }

  lemma KeywordIs(logic: string, rest: string)
    requires logic == "AND" || logic == "OR"
    ensures KeywordLength(logic + rest) == |logic|
  {
    var u := logic + rest;
    assert u[..|logic|] == logic;
    assert Same("AND", "and") && Same("OR", "or");
    if logic == "OR" { assert |u| >= 3 ==> u[..3][0] == 'O' && Lower('O') == 'o'; }
  }

  lemma LeadBlank(u: string)
    requires u != [] && !IsSpace(u[0])
    ensures Spaces(" " + u) == 1 && (" " + u)[1..] == u
  {
    assert (" " + u)[1..] == u;
  }

  lemma ConnectiveIs(t: string, keyword: string, u: string, rest: string)
    requires t == " " + u && u == keyword + (" " + rest) && KeywordLength(u) == |keyword| > 0
    requires !IsSpace(u[0]) && rest != [] && !IsSpace(rest[0])
    ensures ConnectiveAt(t) == Some(Connective(keyword, |keyword| + 2))
  {
    hide KeywordLength;
    LeadBlank(u);
    LeadBlank(rest);
    SuffixOf(keyword, " " + rest, |keyword|);
    assert t[1..][|keyword|..] == t[1 + |keyword|..];
    assert t[1..1 + |keyword|] == keyword;
  }

  /** The connective that the browser puts between two rules. */
  lemma LogicMatches(logic: string, rest: string)
    requires logic == "AND" || logic == "OR"
    requires rest != [] && !IsSpace(rest[0])
    ensures ConnectiveAt(" " + logic + " " + rest) == Some(Connective(logic, |logic| + 2))
  {
    hide KeywordLength, ConnectiveAt;
    var u := logic + (" " + rest);
    KeywordIs(logic, " " + rest);
    assert " " + logic + " " + rest == " " + u && !IsSpace(u[0]);
    ConnectiveIs(" " + logic + " " + rest, logic, u, rest);
  }

  /** A piece, a connective, and the rest. */
  lemma SplitStep(first: string, logic: string, rest: string)
    requires logic == "AND" || logic == "OR"
    requires rest != [] && !IsSpace(rest[0]) && Quiet(first, " " + logic + " " + rest)
    ensures var (pieces, keywords) := Tokenize(rest);
      Tokenize(first + (" " + logic + " " + rest)) == ([first] + pieces, [logic] + keywords)
  {
    var tail := " " + logic + " " + rest;
    var (pieces, keywords) := Tokenize(rest);
    LogicMatches(logic, rest);
    assert tail[|logic| + 2..] == rest;
    assert Tokenize(tail) == ([""] + pieces, [logic] + keywords);
    TokenizeSkip(first, tail);
    assert first + "" == first && ([""] + pieces)[1..] == pieces;
  }

  function Repeat(text: string, n: nat): (r: seq<string>)
    ensures |r| == n
  {
    if n == 0 then [] else [text] + Repeat(text, n - 1)
  }

  lemma PredicateHead(rules: seq<FilterRule>, logic: string)
    requires rules != [] && Plain(rules[0])
    ensures Predicate(rules, logic) != [] && IsWord(Predicate(rules, logic)[0])
  {
    var f := rules[0].field[0];
    assert f in rules[0].field;
    assert Print(rules[0])[0] == f;
  }

  /** The printed text splits into the printed rules, with the chosen connective between them. */
  lemma {:induction false} PredicateSplits(rules: seq<FilterRule>, logic: string)
    requires rules != [] && (forall r | r in rules :: Plain(r)) && (logic == "AND" || logic == "OR")
    ensures Tokenize(Predicate(rules, logic)) == (PrintAll(rules), Repeat(logic, |rules| - 1))
  {
    hide ConnectiveAt, Tokenize, Quiet;
    assert rules[0] in rules;
    if |rules| == 1 {
      OneRuleSplits(rules, logic);
    } else {
      var rest := Predicate(rules[1..], logic);
      PrintTail(rules, logic);
      assert rules[1..][0] in rules;
      PredicateHead(rules[1..], logic);
      WordIsNoSpace(rest[0]);
      RuleIsOnePiece(rules[0], " " + logic + " " + rest);
      SplitStep(Print(rules[0]), logic, rest);
      assert forall r | r in rules[1..] :: r in rules;
      PredicateSplits(rules[1..], logic);
    }
  }

  lemma OneRuleSplits(rules: seq<FilterRule>, logic: string)
    requires |rules| == 1 && Plain(rules[0])
    ensures Tokenize(Predicate(rules, logic)) == (PrintAll(rules), [])
  {
    RuleIsOnePiece(rules[0], "");
    TokenizeOne(Print(rules[0]));
    assert PrintAll(rules) == [Print(rules[0])];
  }

  lemma TokenizeOne(t: string)
    requires Quiet(t, "")
    ensures Tokenize(t) == ([t], [])
  {
    TokenizeSkip(t, "");
    PrependToEmpty(t);
  }

  lemma PrependToEmpty(t: string)
    ensures Prepend(t, Tokenize("")) == ([t], []) && t + "" == t
  {
    assert Tokenize("") == ([""], []);
    var none: seq<string> := [];
    assert t + "" == t && [""][1..] == none && [t] + none == [t];
  }

  lemma PrintTail(rules: seq<FilterRule>, logic: string)
    requires |rules| > 1
    ensures PrintAll(rules) == [Print(rules[0])] + PrintAll(rules[1..])
    ensures Predicate(rules, logic) == Print(rules[0]) + (" " + logic + " " + Predicate(rules[1..], logic))
  {
    assert PrintAll(rules)[1..] == PrintAll(rules[1..]);
  }

  lemma StripNothing(t: string)
    requires t != [] && !IsSpace(t[0]) && !IsSpace(t[|t| - 1])
    ensures Strip(t) == t
  {
  }

  lemma {:induction false} PredicateEnds(rules: seq<FilterRule>, logic: string)
    requires rules != []
    ensures Predicate(rules, logic) != [] && Predicate(rules, logic)[|Predicate(rules, logic)| - 1] == '\''
  {
    if |rules| > 1 {
      PredicateEnds(rules[1..], logic);
      assert PrintAll(rules)[1..] == PrintAll(rules[1..]);
    }
  }

  /** A printed rule matches as itself. */
  lemma RuleMatches(rule: FilterRule)
    requires Plain(rule)
    ensures MatchRule(Print(rule)) == Some(rule)
  {
    hide Unconnected, LiteralBody, MatchRule;
    PlainBody(rule.value);
    assert Same("contains", "contains");
    PrintIsWritten(rule);
    WrittenIs(rule, " ", " ");
  }

  lemma PrintIsWritten(rule: FilterRule)
    ensures Print(rule) == Written(rule, " ", " ")
  {
    assert " '" == " " + "'";
    var quoted := "'" + (rule.value + "'");
    assert Print(rule) == rule.field + " " + rule.op + (" " + quoted);
    assert rule.field + " " + rule.op + (" " + quoted) == rule.field + (" " + (rule.op + (" " + quoted)));
  }

  lemma RuleUnstripped(rule: FilterRule)
    requires Plain(rule)
    ensures Strip(Print(rule)) == Print(rule)
  {
    assert rule.field[0] in rule.field;
    WordIsNoSpace(rule.field[0]);
    StripNothing(Print(rule));
  }

  lemma {:induction false} RulesMatch(rules: seq<FilterRule>)
    requires forall r | r in rules :: Plain(r)
    ensures MatchRules(PrintAll(rules)) == Some(rules)
  {
    if rules != [] {
      var n := |rules| - 1;
      assert rules[n] in rules && forall r | r in rules[..n] :: r in rules;
      RulesMatch(rules[..n]);
      RuleUnstripped(rules[n]);
      RuleMatches(rules[n]);
      MatchLast(PrintAll(rules), rules);
    }
  }

  lemma MatchLast(pieces: seq<string>, rules: seq<FilterRule>)
    requires rules != [] && pieces == PrintAll(rules)
    requires MatchRules(PrintAll(rules[..|rules| - 1])) == Some(rules[..|rules| - 1])
    requires MatchRule(Strip(pieces[|rules| - 1])) == Some(rules[|rules| - 1])
    ensures MatchRules(pieces) == Some(rules)
  {
    hide MatchRule, Strip, Print;
    var n := |rules| - 1;
    assert pieces[..n] == PrintAll(rules[..n]);
    assert rules[..n] + [rules[n]] == rules;
  }

  /** The server recovers the rules of the form, in order, and joins their conditions by the
      connective that was chosen. */
  lemma RecoversRules(rules: seq<FilterRule>, logic: string, searchColumn: string)
    requires rules != [] && (forall r | r in rules :: Plain(r)) && (logic == "AND" || logic == "OR")
    ensures var text := Predicate(rules, logic);
      && Strip(text) == text
      && MatchRules(Tokenize(text).0) == Some(rules)
      && Sql(text, searchColumn) == Some(Interleave(Conditions(rules), Repeat(logic, |rules| - 1)))
  {
    var text := Predicate(rules, logic);
    assert rules[0] in rules;
    PredicateHead(rules, logic);
    WordIsNoSpace(text[0]);
    PredicateEnds(rules, logic);
    StripNothing(text);
    PredicateSplits(rules, logic);
    RulesMatch(rules);
  }

  // ----- The two regular expressions

  predicate Blanks(t: string) {
    forall ch | ch in t :: IsSpace(ch)
  }

  /** `\w+` */
  predicate IsColumn(column: string) {
    column != "" && forall ch | ch in column :: IsWord(ch)
  }

  predicate OperatorText(op: string) {
    op in {"==", "!=", ">=", "<=", ">", "<"} || Same(op, "contains")
  }

  /** `(?:[^'\\]|\\.)*` */
  predicate LiteralBody(v: string) {
    v == "" ||
    if v[0] == '\\' then |v| > 1 && v[1] != '\n' && LiteralBody(v[2..]) else v[0] != '\'' && LiteralBody(v[1..])
  }

  lemma {:induction false} PlainBody(v: string)
    requires '\'' !in v && '\\' !in v
    ensures LiteralBody(v)
  {
    if v != "" {
      assert v[0] in v;
      PlainBody(v[1..]);
    }
  }

  /** The text of a rule: field, operator and quoted value, with blanks around the operator or not. */
  ghost predicate RuleText(t: string, rule: FilterRule) {
    && IsColumn(rule.field) && OperatorText(rule.op) && LiteralBody(rule.value)
    && exists before, after :: Blanks(before) && Blanks(after) && t == Written(rule, before, after)
  }

  function Written(rule: FilterRule, before: string, after: string): string {
    rule.field + (before + (rule.op + (after + ("'" + (rule.value + "'")))))
  }

  lemma {:induction false} SpacesAre(t: string)
    ensures Blanks(t[..Spaces(t)])
  {
    if t != [] && IsSpace(t[0]) {
      SpacesAre(t[1..]);
      assert t[..Spaces(t)] == [t[0]] + t[1..][..Spaces(t[1..])];
    }
  }

  lemma {:induction false} WordsAre(t: string)
    ensures forall ch | ch in t[..Words(t)] :: IsWord(ch)
  {
    if t != [] && IsWord(t[0]) {
      WordsAre(t[1..]);
      assert t[..Words(t)] == [t[0]] + t[1..][..Words(t[1..])];
    }
  }

  lemma {:induction false} BlanksSkip(b: string, u: string)
    requires Blanks(b) && u != [] && !IsSpace(u[0])
    ensures SkipSpaces(b + u) == u && Spaces(b + u) == |b|
  {
    if b == [] {
      assert b + u == u;
    } else {
      assert b[0] in b && (b + u)[1..] == b[1..] + u;
      BlanksSkip(b[1..], u);
      assert (b + u)[|b|..] == u;
    }
  }

  lemma {:induction false} QuotedRestExactly(t: string, v: string)
    ensures QuotedRest(t) == Some(v) <==> LiteralBody(v) && t == v + "'"
    decreases |t|
  {
    assert t == v + "'" ==> (v == "" || v[0] == t[0]) && (|v| > 1 ==> v[1] == t[1]);
    if t == "'" {
      assert v == "" <==> t == v + "'";
    } else if t != [] && t[0] == '\\' {
      if |t| > 1 && t[1] != '\n' {
        var u := if |v| > 1 then v[2..] else "";
        QuotedRestExactly(t[2..], u);
        if QuotedRest(t) == Some(v) {
          QuotedHead(t, 2, v);
        }
        if LiteralBody(v) && t == v + "'" {
          assert v[0] == '\\' && t[2..] == v[2..] + "'" && t[..2] + v[2..] == v;
        }
      }
    } else if t != [] && t[0] != '\'' {
      var u := if |v| > 0 then v[1..] else "";
      QuotedRestExactly(t[1..], u);
      if QuotedRest(t) == Some(v) {
        QuotedHead(t, 1, v);
      }
      if LiteralBody(v) && t == v + "'" {
        assert v != "" && v[0] == t[0] && t[1..] == v[1..] + "'" && [t[0]] + v[1..] == v;
      }
    }
  }

  /** What is read of a literal begins with what was consumed first. */
  lemma QuotedHead(t: string, n: nat, v: string)
    requires (n == 1 || n == 2) && n <= |t| && QuotedRest(t) == Some(v) && t != "'"
    requires if n == 2 then t[0] == '\\' else t[0] != '\\'
    ensures |v| >= n && v[..n] == t[..n] && QuotedRest(t[n..]) == Some(v[n..])
  {
    var w := QuotedRest(t[n..]).value;
    assert v == t[..n] + w && v[n..] == w;
  }

  lemma OperatorsAre(op: string)
    requires OperatorText(op)
    ensures op != "" && (forall ch | ch in op :: !IsSpace(ch)) && (Same(op, "contains") || !IsWord(op[0]))
    ensures Same(op, "contains") ==> |op| == 8 && forall ch | ch in op :: IsWord(ch)
  {
    if Same(op, "contains") {
      forall ch | ch in op ensures IsWord(ch) && !IsSpace(ch) {
        var i :| 0 <= i < |op| && op[i] == ch;
        assert Lower(op[i]) == "contains"[i];
        LetterIsWord(ch);
      }
    }
  }

  lemma LetterIsWord(ch: char)
    requires Lower(ch) in "contains"
    ensures IsWord(ch) && !IsSpace(ch)
  {
    assert forall c | c in "contains" :: 'a' <= c <= 'z';
    WordIsNoSpace(if IsWord(ch) then ch else 'a');
  }

  /** A tail that starts with a quoted value, after blanks. */
  lemma QuotedExactly(t: string, v: string)
    ensures QuotedValue(SkipSpaces(t)) == Some(v) <==>
      LiteralBody(v) && exists after :: Blanks(after) && t == after + ("'" + (v + "'"))
  {
    var n := Spaces(t);
    var rest := t[n..];
    SpacesAre(t);
    assert t == t[..n] + rest;
    if rest != [] && rest[0] == '\'' {
      assert rest == "'" + rest[1..];
      QuotedRestExactly(rest[1..], v);
    }
    if after :| Blanks(after) && t == after + ("'" + (v + "'")) {
      BlanksSkip(after, "'" + (v + "'"));
      assert ("'" + (v + "'"))[1..] == v + "'";
      if LiteralBody(v) { QuotedRestExactly(v + "'", v); }
    }
  }

  lemma WrittenIs(rule: FilterRule, before: string, after: string)
    requires IsColumn(rule.field) && OperatorText(rule.op) && LiteralBody(rule.value) && Blanks(before) && Blanks(after)
    ensures MatchRule(Written(rule, before, after)) == Some(rule)
  {
    var quoted := "'" + (rule.value + "'");
    var tail := rule.op + (after + quoted);
    var t := Written(rule, before, after);
    OperatorsAre(rule.op);
    assert rule.op[0] in rule.op;
    if before == "" && Same(rule.op, "contains") {
      assert t == (rule.field + rule.op) + (after + quoted);
      GluedIs(rule, after);
    } else {
      assert t == rule.field + (before + tail);
      assert before != "" ==> before[0] in before;
      SpaceIsNoWord(if before == "" then ' ' else before[0]);
      WordsStop(rule.field, before + tail);
      assert t[..|rule.field|] == rule.field && t[|rule.field|..] == before + tail;
      BlanksSkip(before, tail);
      WithOperatorReads(rule, after);
    }
  }

  lemma SpaceIsNoWord(ch: char)
    requires IsSpace(ch)
    ensures !IsWord(ch)
  {
  }

  lemma OperatorBefore(op: string, rest: string)
    requires OperatorText(op) && rest != [] && rest[0] != '='
    ensures OperatorAt(op + rest) == Some(op) && (op + rest)[|op|..] == rest
  {
    var t := op + rest;
    OperatorsAre(op);
    assert t[..|op|] == op && t[|op|] == rest[0];
    if Same(op, "contains") {
      assert op[0] in op && IsWord(t[0]);
      assert !IsWord('=') && !IsWord('!') && !IsWord('>') && !IsWord('<');
    } else if |op| == 1 {
      assert t[1] != '=';
    }
  }

  lemma WithOperatorReads(rule: FilterRule, after: string)
    requires OperatorText(rule.op) && LiteralBody(rule.value) && Blanks(after)
    ensures WithOperator(rule.field, rule.op + (after + ("'" + (rule.value + "'")))) == Some(rule)
  {
    var rest := after + ("'" + (rule.value + "'"));
    assert after != "" ==> rest[0] == after[0] && after[0] in after;
    assert rest[0] != '=';
    OperatorBefore(rule.op, rest);
    QuotedExactly(rest, rule.value);
  }

  lemma MatchGlued(t: string, n: nat, v: string)
    requires Words(t) == n && 8 < n <= |t| && Same(t[n - 8..n], "contains")
    requires OperatorAt(SkipSpaces(t[n..])) == None && QuotedValue(SkipSpaces(t[n..])) == Some(v)
    ensures MatchRule(t) == Some(FilterRule(t[..n - 8], t[n - 8..n], v))
  {
    hide Same, OperatorAt, QuotedValue, Words, SkipSpaces;
  }

  lemma Halves(a: string, b: string, c: string)
    ensures var t := (a + b) + c; t[..|a|] == a && t[|a|..|a + b|] == b && t[|a + b|..] == c
  {
  }

  /** An operator `contains` that follows the field without a blank. */
  lemma GluedIs(rule: FilterRule, after: string)
    requires IsColumn(rule.field) && Same(rule.op, "contains") && LiteralBody(rule.value) && Blanks(after)
    ensures MatchRule((rule.field + rule.op) + (after + ("'" + (rule.value + "'")))) == Some(rule)
  {
    var quoted := "'" + (rule.value + "'");
    var rest := after + quoted;
    GluedWords(rule, rest) by {
      assert after != "" ==> rest[0] == after[0] && after[0] in after;
      SpaceIsNoWord(if after == "" then ' ' else after[0]);
    }
    Halves(rule.field, rule.op, rest);
    BlanksSkip(after, quoted);
    QuoteIsNoOperator(rule.value + "'");
    QuotedExactly(rest, rule.value);
    hide MatchRule, OperatorAt, QuotedValue, Words, SkipSpaces, LiteralBody;
    MatchGlued((rule.field + rule.op) + rest, |rule.field + rule.op|, rule.value);
  }

  lemma GluedWords(rule: FilterRule, rest: string)
    requires IsColumn(rule.field) && Same(rule.op, "contains") && rest != "" && !IsWord(rest[0])
    ensures Words((rule.field + rule.op) + rest) == |rule.field + rule.op| > 8 == |rule.op|
  {
    OperatorsAre(rule.op);
    assert forall ch | ch in rule.field + rule.op :: ch in rule.field || ch in rule.op;
    WordsStop(rule.field + rule.op, rest);
  }

  lemma QuoteIsNoOperator(t: string)
    ensures OperatorAt("'" + t) == None
  {
    var u := "'" + t;
    assert u[0] == '\'';
    assert |u| >= 8 ==> u[..8][0] == '\'' && Lower('\'') == '\'';
  }

  /** The matcher matches exactly the texts of rules, and gives the rule. */
  lemma MatchesExactly(t: string, rule: FilterRule)
    ensures MatchRule(t) == Some(rule) <==> RuleText(t, rule)
  {
    if RuleText(t, rule) {
      var before, after :| Blanks(before) && Blanks(after) && t == Written(rule, before, after);
      WrittenIs(rule, before, after);
    }
    if MatchRule(t) == Some(rule) {
      MatchIsText(t, rule);
    }
  }

  lemma MatchIsText(t: string, rule: FilterRule)
    requires MatchRule(t) == Some(rule)
    ensures RuleText(t, rule)
  {
    hide OperatorAt, QuotedValue, Words, SkipSpaces, LiteralBody, Same, OperatorText, RuleText;
    var n := Words(t);
    if WithOperator(t[..n], SkipSpaces(t[n..])).Some? {
      SpacedIsText(t, rule);
    } else {
      GluedIsText(t, rule);
    }
  }

  lemma WordPrefix(t: string, n: nat)
    requires 0 < n <= Words(t)
    ensures IsColumn(t[..n])
  {
    WordsAre(t);
    assert forall ch | ch in t[..n] :: ch in t[..Words(t)];
  }

  lemma SpacedIsText(t: string, rule: FilterRule)
    requires Words(t) > 0 && WithOperator(t[..Words(t)], SkipSpaces(t[Words(t)..])) == Some(rule)
    ensures RuleText(t, rule)
  {
    hide WithOperator, LiteralBody, OperatorText, Same, QuotedValue, IsColumn, Blanks, Words, Spaces;
    var n := Words(t);
    var rest := t[n..];
    WordPrefix(t, n);
    SpacesAre(rest);
    OperatorIsText(t[..n], SkipSpaces(rest), rule);
    var after :| Blanks(after) && SkipSpaces(rest) == rule.op + (after + ("'" + (rule.value + "'")));
    SpacedParts(t, n, Spaces(rest));
    assert SkipSpaces(rest) == rest[Spaces(rest)..];
    IsRuleText(t, rule, rest[..Spaces(rest)], after);
  }

  lemma IsRuleText(t: string, rule: FilterRule, before: string, after: string)
    requires IsColumn(rule.field) && OperatorText(rule.op) && LiteralBody(rule.value) && Blanks(before) && Blanks(after)
    requires t == rule.field + (before + (rule.op + (after + ("'" + (rule.value + "'")))))
    ensures RuleText(t, rule)
  {
    hide IsColumn, OperatorText, LiteralBody, Blanks;
    assert t == Written(rule, before, after);
  }

  lemma SpacedParts(t: string, n: nat, m: nat)
    requires n <= |t| && m <= |t| - n
    ensures t == t[..n] + (t[n..][..m] + t[n..][m..])
  {
    assert t[n..] == t[n..][..m] + t[n..][m..];
    assert t == t[..n] + t[n..];
  }

  lemma GluedIsText(t: string, rule: FilterRule)
    requires var n := Words(t); n > 8 && Same(t[n - 8..n], "contains")
    requires var n := Words(t); rule.field == t[..n - 8] && rule.op == t[n - 8..n]
    requires QuotedValue(SkipSpaces(t[Words(t)..])) == Some(rule.value)
    ensures RuleText(t, rule)
  {
    hide LiteralBody, Same, QuotedValue, SkipSpaces, Words, IsColumn;
    var n := Words(t);
    WordPrefix(t, n - 8);
    QuotedExactly(t[n..], rule.value);
    var after :| Blanks(after) && t[n..] == after + ("'" + (rule.value + "'"));
    GluedParts(t, n);
    assert "" + (rule.op + t[n..]) == rule.op + t[n..];
    assert t == Written(rule, "", after);
  }

  lemma GluedParts(t: string, n: nat)
    requires 8 < n <= |t|
    ensures t == t[..n - 8] + (t[n - 8..n] + t[n..])
  {
  }

  lemma OperatorIsText(field: string, t: string, rule: FilterRule)
    requires WithOperator(field, t) == Some(rule)
    ensures rule.field == field && OperatorText(rule.op) && LiteralBody(rule.value)
    ensures exists after :: Blanks(after) && t == rule.op + (after + ("'" + (rule.value + "'")))
  {
    var op := OperatorAt(t).value;
    assert t == op + t[|op|..];
    OperatorTextAt(t);
    QuotedExactly(t[|op|..], rule.value);
  }

  lemma OperatorTextAt(t: string)
    requires OperatorAt(t).Some?
    ensures OperatorText(OperatorAt(t).value)
  {
    var op := OperatorAt(t).value;
    if |op| == 2 {
      assert "==" <= t ==> op == "==";
      assert "!=" <= t ==> op == "!=";
      assert ">=" <= t ==> op == ">=";
      assert "<=" <= t ==> op == "<=";
    } else if |op| == 1 {
      assert ">" <= t ==> op == ">";
      assert "<" <= t ==> op == "<";
    }
  }

  // ----- The connectives

  predicate KeywordText(k: string) {
    Same(k, "and") || Same(k, "or")
  }

  predicate ConnectiveParts(before: string, keyword: string, after: string, rest: string) {
    && before != "" && Blanks(before) && KeywordText(keyword) && after != "" && Blanks(after)
    && (rest == "" || !IsSpace(rest[0]))
  }

  function Around(before: string, keyword: string, after: string, rest: string): string {
    before + (keyword + (after + rest))
  }

  /** `\s+(AND|OR)\s+`, with no more blanks behind the match. */
  ghost predicate ConnectiveText(t: string, m: Connective) {
    exists before, after, rest ::
      && ConnectiveParts(before, m.keyword, after, rest)
      && t == Around(before, m.keyword, after, rest) && m.length == |before| + |m.keyword| + |after|
  }

  lemma ConnectiveExactly(t: string, m: Connective)
    ensures ConnectiveAt(t) == Some(m) <==> ConnectiveText(t, m)
  {
    hide ConnectiveAt, ConnectiveParts;
    if ConnectiveAt(t) == Some(m) { ConnectiveReads(t, m); }
    if ConnectiveText(t, m) {
      var before, after, rest :|
        && ConnectiveParts(before, m.keyword, after, rest)
        && t == Around(before, m.keyword, after, rest) && m.length == |before| + |m.keyword| + |after|;
      ConnectiveMatches(before, m.keyword, after, rest);
    }
  }

  lemma ConnectiveReads(t: string, m: Connective)
    requires ConnectiveAt(t) == Some(m)
    ensures ConnectiveText(t, m)
  {
    hide ConnectiveText, KeywordText, IsSpace, Spaces, KeywordLength, Blanks;
    var a := Spaces(t);
    var k := KeywordLength(t[a..]);
    PartsRead(t, a, k, Spaces(t[a + k..]));
  }

  lemma PartsRead(t: string, a: nat, k: nat, b: nat)
    requires a == Spaces(t) > 0 && k == KeywordLength(t[a..]) > 0 && b == Spaces(t[a + k..]) > 0
    ensures ConnectiveText(t, Connective(t[a..a + k], a + k + b))
  {
    hide *;
    PartsAre(t, a, k, b);
    SlicesShow(t, a, k, b);
  }

  lemma SlicesShow(t: string, a: nat, k: nat, b: nat)
    requires a + k + b <= |t| && ConnectiveParts(t[..a], t[a..a + k], t[a + k..a + k + b], t[a + k + b..])
    ensures ConnectiveText(t, Connective(t[a..a + k], a + k + b))
  {
    hide ConnectiveParts, Around;
    var m := Connective(t[a..a + k], a + k + b);
    ThreeParts(t, a, k, b);
    assert m.length == |t[..a]| + |m.keyword| + |t[a + k..a + k + b]|;
  }

  lemma PartsAre(t: string, a: nat, k: nat, b: nat)
    requires a == Spaces(t) > 0 && k == KeywordLength(t[a..]) > 0 && b == Spaces(t[a + k..]) > 0
    ensures a + k + b <= |t| && ConnectiveParts(t[..a], t[a..a + k], t[a + k..a + k + b], t[a + k + b..])
  {
    hide KeywordText, IsSpace, Spaces, KeywordLength, Blanks;
    SpacesAre(t);
    KeywordWithin(t, a);
    BlanksWithin(t, a + k);
    hide ConnectiveParts;
    SlicesAreParts(t, a, a + k, a + k + b);
  }

  lemma SlicesAreParts(t: string, i: nat, j: nat, n: nat)
    requires 0 < i < j < n <= |t| && Blanks(t[..i]) && KeywordText(t[i..j]) && Blanks(t[j..n])
    requires n < |t| ==> !IsSpace(t[n])
    ensures ConnectiveParts(t[..i], t[i..j], t[j..n], t[n..])
  {
    hide Blanks, KeywordText, IsSpace;
  }

  lemma KeywordWithin(t: string, i: nat)
    requires i <= |t|
    ensures var k := KeywordLength(t[i..]); i + k <= |t| && (k > 0 ==> KeywordText(t[i..i + k]))
  {
    KeywordPrefix(t[i..]);
    ConnectiveOffsets(t, i, KeywordLength(t[i..]));
  }

  lemma BlanksWithin(t: string, i: nat)
    requires i <= |t|
    ensures var j := i + Spaces(t[i..]); j <= |t| && Blanks(t[i..j]) && (j < |t| ==> !IsSpace(t[j]))
  {
    var n := Spaces(t[i..]);
    SpacesAre(t[i..]);
    assert t[i..][..n] == t[i..i + n];
  }

  lemma KeywordPrefix(t: string)
    ensures KeywordLength(t) > 0 ==> KeywordText(t[..KeywordLength(t)])
  {
  }

  lemma ThreeParts(t: string, a: nat, k: nat, b: nat)
    requires a + k + b <= |t|
    ensures t == Around(t[..a], t[a..a + k], t[a + k..a + k + b], t[a + k + b..])
  {
  }

  lemma {:induction false} BlanksPrefix(b: string, u: string)
    requires Blanks(b) && (u == "" || !IsSpace(u[0]))
    ensures Spaces(b + u) == |b| && (b + u)[|b|..] == u
  {
    if u == "" {
      assert b + u == b;
      SpacesAll(b);
    } else {
      BlanksSkip(b, u);
    }
  }

  lemma {:induction false} SpacesAll(b: string)
    requires Blanks(b)
    ensures Spaces(b) == |b|
  {
    if b != "" {
      assert b[0] in b;
      SpacesAll(b[1..]);
    }
  }

  lemma ConnectiveMatches(before: string, keyword: string, after: string, rest: string)
    requires ConnectiveParts(before, keyword, after, rest)
    ensures ConnectiveAt(Around(before, keyword, after, rest))
         == Some(Connective(keyword, |before| + |keyword| + |after|))
  {
    var tail := keyword + (after + rest);
    PartsShow(before, keyword, after, rest);
    ThreeOffsets(before, keyword, after + rest);
    hide Spaces, KeywordLength, ConnectiveParts;
    PartsMatch(before + tail, |before|, |keyword|, |after|);
  }

  lemma PartsShow(before: string, keyword: string, after: string, rest: string)
    requires ConnectiveParts(before, keyword, after, rest)
    ensures Spaces(before + (keyword + (after + rest))) == |before| > 0
    ensures KeywordLength(keyword + (after + rest)) == |keyword| > 0
    ensures Spaces(after + rest) == |after| > 0
  {
    assert after[0] in after;
    KeywordReads(keyword, after + rest);
    BlanksPrefix(before, keyword + (after + rest));
    BlanksPrefix(after, rest);
  }

  lemma PartsMatch(t: string, a: nat, k: nat, b: nat)
    requires a == Spaces(t) > 0 && k == KeywordLength(t[a..]) > 0 && b == Spaces(t[a + k..]) > 0
    ensures ConnectiveAt(t) == Some(Connective(t[a..a + k], a + k + b))
  {
    hide Spaces, KeywordLength;
  }

  lemma ThreeOffsets(a: string, b: string, c: string)
    ensures var t := a + (b + c); t[|a|..] == b + c && t[|a|..|a| + |b|] == b && t[|a| + |b|..] == c
  {
  }

  lemma ConnectiveOffsets(t: string, a: nat, k: nat)
    requires a + k <= |t|
    ensures t[a..][..k] == t[a..a + k] && t[a..][k..] == t[a + k..]
  {
  }

  lemma KeywordReads(keyword: string, u: string)
    requires KeywordText(keyword) && u != "" && IsSpace(u[0])
    ensures KeywordLength(keyword + u) == |keyword| > 0 && !IsSpace(keyword[0])
  {
    var t := keyword + u;
    assert t[..|keyword|] == keyword && t[|keyword|] == u[0];
    assert Lower(keyword[0]) in "ao";
    if Same(keyword, "or") {
      assert |t| >= 3 ==> t[..3][0] == keyword[0];
    }
  }

  /** The pieces up to each connective, the leftmost one first, and the connectives' keywords. */
  ghost predicate SplitsLeftmost(t: string, pieces: seq<string>, keywords: seq<string>)
    requires |pieces| == |keywords| + 1
    decreases |keywords|
  {
    var n := |pieces[0]|;
    && pieces[0] <= t && (forall i | 0 <= i < n :: ConnectiveAt(t[i..]) == None)
    && match ConnectiveAt(t[n..])
       case None => keywords == [] && n == |t|
       case Some(m) =>
         keywords != [] && m.keyword == keywords[0] && SplitsLeftmost(t[n..][m.length..], pieces[1..], keywords[1..])
  }

  lemma EmptyHasNone()
    ensures ConnectiveAt([]) == None
  {
  }

  lemma Behind(t: string, i: nat)
    requires i < |t|
    ensures t[i + 1..] == t[1..][i..]
  {
  }

  lemma HeadFirst(t: string, piece: string)
    requires t != "" && piece <= t[1..]
    ensures [t[0]] + piece <= t
  {
    assert t == [t[0]] + t[1..];
  }

  /** One more character before the first piece. */
  lemma SplitsBehind(t: string, pieces: seq<string>, keywords: seq<string>)
    requires t != "" && ConnectiveAt(t) == None && |pieces| == |keywords| + 1
    requires SplitsLeftmost(t[1..], pieces, keywords)
    ensures SplitsLeftmost(t, [[t[0]] + pieces[0]] + pieces[1..], keywords)
  {
    hide ConnectiveAt;
    var n := |pieces[0]|;
    HeadFirst(t, pieces[0]);
    Behind(t, n);
    forall i | 0 <= i < n + 1 ensures ConnectiveAt(t[i..]) == None {
      if i > 0 { Behind(t, i - 1); }
      assert t[0..] == t;
    }
    var all := [[t[0]] + pieces[0]] + pieces[1..];
    assert all[0] == [t[0]] + pieces[0] && all[1..] == pieces[1..];
  }

  lemma {:induction false} TokenizeSplits(t: string)
    ensures SplitsLeftmost(t, Tokenize(t).0, Tokenize(t).1)
    decreases |t|
  {
    hide ConnectiveAt;
    if t == [] {
      EmptyHasNone();
    } else if ConnectiveAt(t).Some? {
      var rest := t[ConnectiveAt(t).value.length..];
      TokenizeSplits(rest);
      assert t[0..] == t && Tokenize(t).0[1..] == Tokenize(rest).0 && Tokenize(t).1[1..] == Tokenize(rest).1;
    } else {
      TokenizeSplits(t[1..]);
      SplitsBehind(t, Tokenize(t[1..]).0, Tokenize(t[1..]).1);
    }
  }

  lemma {:induction false} SplitsOnce(t: string, p: seq<string>, k: seq<string>, q: seq<string>, l: seq<string>)
    requires |p| == |k| + 1 && |q| == |l| + 1
    requires SplitsLeftmost(t, p, k) && SplitsLeftmost(t, q, l)
    ensures p == q && k == l
    decreases |k|
  {
    hide ConnectiveAt;
    assert p[0] == t[..|p[0]|] && q[0] == t[..|q[0]|];
    assert p == [p[0]] + p[1..] && q == [q[0]] + q[1..];
    if ConnectiveAt(t[|p[0]|..]).Some? && ConnectiveAt(t[|q[0]|..]).Some? {
      var rest := t[|p[0]|..][ConnectiveAt(t[|p[0]|..]).value.length..];
      assert p[0] == q[0];
      SplitsOnce(rest, p[1..], k[1..], q[1..], l[1..]);
      assert k == [k[0]] + k[1..] && l == [l[0]] + l[1..];
    }
  }

  /** Splitting gives the pieces up to the leftmost connective, up to the next one, and so on. */
  lemma TokenizeExactly(t: string, pieces: seq<string>, keywords: seq<string>)
    requires |pieces| == |keywords| + 1
    ensures Tokenize(t) == (pieces, keywords) <==> SplitsLeftmost(t, pieces, keywords)
  {
    TokenizeSplits(t);
    if SplitsLeftmost(t, pieces, keywords) {
      SplitsOnce(t, Tokenize(t).0, Tokenize(t).1, pieces, keywords);
    }
  }
}
