/** The WHERE clause that the server sends for a filter text and time bounds
    (`src/databridge/adapters.py`), and what it means under the precedence of SQL. */
module WhereClause {
  import opened Wrappers
  import opened FilterText

  /** What stands between connectives: a rule of the filter, the full-text search for an expression that
      is no rule list, or a bound on the time column. */
  datatype Atom =
    | Rule(rule: FilterRule)
    | Anywhere(column: string, text: string)
    | From(column: string, start: string)
    | Until(column: string, end: string)

  function AtomText(a: Atom): string {
    match a
    case Rule(rule) => Condition(rule)
    case Anywhere(column, text) => Search(text, column)
    case From(column, start) => column + " " + ">=" + " parseDateTimeBestEffort(" + "'" + start + "'" + ")"
    case Until(column, end) => column + " " + "<" + " parseDateTimeBestEffort(" + "'" + end + "'" + ")"
  }

  function AtomTexts(atoms: seq<Atom>): (texts: seq<string>)
    ensures |texts| == |atoms|
  {
    seq(|atoms|, i requires 0 <= i < |atoms| => AtomText(atoms[i]))
  }

  /** Connectives are words of any case. */
  predicate Joins(keyword: string) {
    Same(keyword, "and")
  }

  lemma KeywordsAre()
    ensures KeywordText("AND") && KeywordText("OR") && Joins("AND") && !Joins("OR")
  {
    assert Same("AND", "and") && Same("OR", "or");
  }

  /** Atoms and the connectives between them, as the clause shows them, without parentheses. */
  datatype Chain = Chain(atoms: seq<Atom>, connectives: seq<string>) {
    predicate Valid() {
      && |atoms| == |connectives| + 1
      && forall k | k in connectives :: KeywordText(k)
    }

    function Text(): string
      requires Valid()
    {
      Interleave(AtomTexts(atoms), connectives)
    }

    /** AND binds tighter than OR: the first `n + 1` atoms hold when some run of atoms joined by
        AND holds throughout; `last` says whether the run that ends there does. */
    function Reads(truth: Atom -> bool, n: nat): (r: (bool, bool))
      requires Valid() && n < |atoms|
    {
      if n == 0 then (false, truth(atoms[0]))
      else
        var (before, last) := Reads(truth, n - 1);
        if Joins(connectives[n - 1]) then (before, last && truth(atoms[n])) else (before || last, truth(atoms[n]))
    }

    predicate Holds(truth: Atom -> bool)
      requires Valid()
    {
      var (before, last) := Reads(truth, |atoms| - 1);
      before || last
    }
  }

  /** The bounds that `preview`, `count` and `fetch_page` append. */
  function Bounds(tsCol: string, start: Option<string>, end: Option<string>): seq<Atom> {
    if tsCol == "" then []
    else
      (match start case Some(s) => [From(tsCol, s)] case None => [])
      + (match end case Some(e) => [Until(tsCol, e)] case None => [])
  }

  /** `' AND '.join(conditions)`, the filter fragment first. */
  method WhereText(query: string, searchColumn: string, tsCol: string, start: Option<string>, end: Option<string>)
    returns (text: Option<string>)
    ensures text == Where(Sql(query, searchColumn), Bounds(tsCol, start, end))
  {
    hide Sql, AtomText;
    var conditions: seq<string> := [];
    var fragment := QueryToSql(query, searchColumn);
    if fragment.Some? { conditions := conditions + [fragment.value]; }
    ghost var atoms: seq<Atom> := [];
    if tsCol != "" && start.Some? {
      conditions := conditions + [AtomText(From(tsCol, start.value))];
      atoms := [From(tsCol, start.value)];
    }
    assert conditions == FragmentList(fragment) + AtomTexts(atoms);
    if tsCol != "" && end.Some? {
      conditions := conditions + [AtomText(Until(tsCol, end.value))];
      atoms := atoms + [Until(tsCol, end.value)];
    }
    assert conditions == FragmentList(fragment) + AtomTexts(atoms);
    assert atoms == Bounds(tsCol, start, end);
    if conditions == [] { return None; }
    return Some(JoinWith(conditions, " AND "));
  }

  function FragmentList(fragment: Option<string>): seq<string> {
    match fragment case Some(c) => [c] case None => []
  }

  function Where(fragment: Option<string>, bounds: seq<Atom>): Option<string> {
    var conditions := FragmentList(fragment) + AtomTexts(bounds);
    if conditions == [] then None else Some(JoinWith(conditions, " AND "))
  }

  function RuleAtoms(rules: seq<FilterRule>): (atoms: seq<Atom>)
    ensures |atoms| == |rules|
  {
    seq(|rules|, i requires 0 <= i < |rules| => Atom.Rule(rules[i]))
  }

  /** The chain that the whole clause shows for a rule list and bounds. */
  function WhereChain(rules: seq<FilterRule>, logic: string, bounds: seq<Atom>): Chain
    requires rules != []
  {
    Chain(RuleAtoms(rules) + bounds, Repeat(logic, |rules| - 1) + Repeat("AND", |bounds|))
  }

  lemma {:induction false} RepeatAt(text: string, n: nat, k: nat)
    requires k < n
    ensures Repeat(text, n)[k] == text
  {
    if k > 0 { RepeatAt(text, n - 1, k - 1); }
  }

  lemma WhereChainValid(rules: seq<FilterRule>, logic: string, bounds: seq<Atom>)
    requires rules != [] && (logic == "AND" || logic == "OR")
    ensures WhereChain(rules, logic, bounds).Valid()
    ensures forall k | 0 <= k < |rules| - 1 :: WhereChain(rules, logic, bounds).connectives[k] == logic
    ensures forall k | |rules| - 1 <= k < |rules| - 1 + |bounds| ::
              WhereChain(rules, logic, bounds).connectives[k] == "AND"
  {
    var (inner, outer) := (Repeat(logic, |rules| - 1), Repeat("AND", |bounds|));
    KeywordsAre();
    hide KeywordText;
    forall k | 0 <= k < |rules| - 1 ensures inner[k] == logic { RepeatAt(logic, |rules| - 1, k); }
    forall k | 0 <= k < |bounds| ensures outer[k] == "AND" { RepeatAt("AND", |bounds|, k); }
  }

  lemma InterleaveOne(parts: seq<string>, keywords: seq<string>, keyword: string, next: string)
    requires |parts| == |keywords| + 1
    ensures Interleave(parts + [next], keywords + [keyword])
         == Interleave(parts, keywords) + " " + keyword + " " + next
  {
    assert (parts + [next])[..|parts|] == parts && (keywords + [keyword])[..|keywords|] == keywords;
  }

  lemma JoinFront(first: string, rest: seq<string>, sep: string)
    requires rest != []
    ensures JoinWith([first] + rest, sep) == first + sep + JoinWith(rest, sep)
  {
    assert ([first] + rest)[1..] == rest;
  }

  lemma JoinAlone(first: string, rest: seq<string>, sep: string)
    requires rest == []
    ensures JoinWith([first] + rest, sep) == first
  {
    assert [first] + rest == [first];
  }

  /** A list of conditions joined by AND, the first of which is itself a chain. */
  lemma {:induction false} JoinIsInterleave(parts: seq<string>, keywords: seq<string>, rest: seq<string>)
    requires |parts| == |keywords| + 1
    ensures JoinWith([Interleave(parts, keywords)] + rest, " AND ")
         == Interleave(parts + rest, keywords + Repeat("AND", |rest|))
    decreases |rest|
  {
    hide Interleave, JoinWith;
    var fragment := Interleave(parts, keywords);
    if rest == [] {
      JoinAlone(fragment, rest, " AND ");
      assert parts + rest == parts && keywords + Repeat("AND", 0) == keywords;
    } else {
      InterleaveOne(parts, keywords, "AND", rest[0]);
      JoinIsInterleave(parts + [rest[0]], keywords + ["AND"], rest[1..]);
      JoinMerges(fragment, " AND ", rest);
      AndSeparator(fragment, rest[0]);
      assert parts + [rest[0]] + rest[1..] == parts + rest;
      assert keywords + ["AND"] + Repeat("AND", |rest| - 1) == keywords + Repeat("AND", |rest|);
    }
  }

  lemma JoinMerges(first: string, sep: string, rest: seq<string>)
    requires rest != []
    ensures JoinWith([first] + rest, sep) == JoinWith([first + sep + rest[0]] + rest[1..], sep)
  {
    hide JoinWith;
    JoinFront(first, rest, sep);
    assert rest == [rest[0]] + rest[1..];
    if |rest| == 1 {
      JoinAlone(rest[0], rest[1..], sep);
      JoinAlone(first + sep + rest[0], rest[1..], sep);
    } else {
      JoinFront(rest[0], rest[1..], sep);
      JoinFront(first + sep + rest[0], rest[1..], sep);
      Regroup(first, sep, rest[0], sep, JoinWith(rest[1..], sep));
    }
  }

  lemma AndSeparator(first: string, next: string)
    ensures first + " AND " + next == first + " " + "AND" + " " + next
  {
    assert " AND " == " " + "AND" + " ";
    Regroup(first, " ", "AND", " ", next);
  }

  lemma Regroup(a: string, b: string, c: string, d: string, e: string)
    ensures a + (b + c + d) + e == a + b + c + d + e
    ensures a + b + (c + d + e) == a + b + c + d + e
  {
  }

  /** The clause that is sent for a rule list is the flat chain: no parentheses keep the rules
      apart from the bounds. */
  lemma WhereIsFlat(rules: seq<FilterRule>, logic: string, searchColumn: string, bounds: seq<Atom>)
    requires rules != [] && (forall r | r in rules :: Plain(r)) && (logic == "AND" || logic == "OR")
    ensures var chain := WhereChain(rules, logic, bounds);
      chain.Valid() && Where(Sql(Predicate(rules, logic), searchColumn), bounds) == Some(chain.Text())
  {
    var chain := WhereChain(rules, logic, bounds);
    WhereChainValid(rules, logic, bounds);
    RecoversRules(rules, logic, searchColumn);
    JoinIsInterleave(Conditions(rules), Repeat(logic, |rules| - 1), AtomTexts(bounds));
    ChainText(rules, logic, bounds);
  }

  lemma ChainText(rules: seq<FilterRule>, logic: string, bounds: seq<Atom>)
    requires rules != [] && WhereChain(rules, logic, bounds).Valid()
    ensures WhereChain(rules, logic, bounds).Text()
         == Interleave(Conditions(rules) + AtomTexts(bounds), Repeat(logic, |rules| - 1) + Repeat("AND", |bounds|))
  {
    assert AtomTexts(RuleAtoms(rules) + bounds) == Conditions(rules) + AtomTexts(bounds);
  }

  /** The chain for any text: the rules it matches with its own connectives, or the search for it. */
  function TypedChain(text: string, searchColumn: string, bounds: seq<Atom>): (chain: Chain)
    ensures chain.Valid()
  {
    hide KeywordText;
    var (pieces, keywords) := Tokenize(text);
    TokensAreKeywords(text);
    KeywordsAre();
    RepeatIs("AND", |bounds|);
    match MatchRules(pieces)
    case Some(rules) => Chain(RuleAtoms(rules) + bounds, keywords + Repeat("AND", |bounds|))
    case None => Chain([Anywhere(searchColumn, text)] + bounds, Repeat("AND", |bounds|))
  }

  lemma {:induction false} TokensAreKeywords(t: string)
    ensures forall k | k in Tokenize(t).1 :: KeywordText(k)
    decreases |t|
  {
    hide ConnectiveAt, KeywordText;
    if t != [] {
      match ConnectiveAt(t)
      case Some(m) =>
        ConnectiveExactly(t, m);
        TokensAreKeywords(t[m.length..]);
      case None => TokensAreKeywords(t[1..]);
    }
  }

  lemma RepeatIs(text: string, n: nat)
    ensures forall k | k in Repeat(text, n) :: k == text
  {
    forall i | 0 <= i < n ensures Repeat(text, n)[i] == text { RepeatAt(text, n, i); }
  }

  /** Whatever the text is, the clause that is sent is the flat chain. */
  lemma TypedIsFlat(expr: string, searchColumn: string, bounds: seq<Atom>)
    requires Strip(expr) != ""
    ensures Where(Sql(expr, searchColumn), bounds) == Some(TypedChain(Strip(expr), searchColumn, bounds).Text())
  {
    hide Tokenize, MatchRules, AtomText, JoinWith, Interleave;
    var text := Strip(expr);
    match MatchRules(Tokenize(text).0)
    case Some(rules) =>
      JoinIsInterleave(Conditions(rules), Tokenize(text).1, AtomTexts(bounds));
      RuleTexts(rules, bounds);
    case None =>
      SearchAlone(text, searchColumn, bounds);
      JoinIsInterleave([Search(text, searchColumn)], [], AtomTexts(bounds));
  }

  /** The bounds alone. */
  function BoundChain(bounds: seq<Atom>): (chain: Chain)
    requires bounds != []
    ensures chain.Valid()
  {
    KeywordsAre();
    RepeatIs("AND", |bounds| - 1);
    Chain(bounds, Repeat("AND", |bounds| - 1))
  }

  lemma BlankIsFlat(expr: string, searchColumn: string, bounds: seq<Atom>)
    requires Strip(expr) == ""
    ensures Where(Sql(expr, searchColumn), bounds) == if bounds == [] then None else Some(BoundChain(bounds).Text())
  {
    hide Tokenize, MatchRules, AtomText, JoinWith, Interleave;
    if bounds != [] {
      assert bounds == [bounds[0]] + bounds[1..];
      FirstText(bounds[0], bounds[1..]);
      OnePart(AtomText(bounds[0]));
      JoinIsInterleave([AtomText(bounds[0])], [], AtomTexts(bounds[1..]));
      NoneFirst(Repeat("AND", |bounds| - 1));
      NoneFirst(AtomTexts(bounds));
    }
  }

  lemma RuleTexts(rules: seq<FilterRule>, bounds: seq<Atom>)
    ensures AtomTexts(RuleAtoms(rules) + bounds) == Conditions(rules) + AtomTexts(bounds)
  {
  }

  lemma SearchAlone(text: string, searchColumn: string, bounds: seq<Atom>)
    ensures Interleave([Search(text, searchColumn)], []) == Search(text, searchColumn)
    ensures AtomTexts([Anywhere(searchColumn, text)] + bounds) == [Search(text, searchColumn)] + AtomTexts(bounds)
    ensures [] + Repeat("AND", |bounds|) == Repeat("AND", |bounds|)
  {
    hide *;
    OnePart(Search(text, searchColumn));
    FirstText(Anywhere(searchColumn, text), bounds);
    assert AtomText(Anywhere(searchColumn, text)) == Search(text, searchColumn) by { SearchText(searchColumn, text); }
    NoneFirst(Repeat("AND", |bounds|));
  }

  lemma SearchText(column: string, text: string)
    ensures AtomText(Anywhere(column, text)) == Search(text, column)
  {
    hide Search;
  }

  lemma OnePart(part: string)
    ensures Interleave([part], []) == part
  {
  }

  lemma NoneFirst(rest: seq<string>)
    ensures [] + rest == rest
  {
  }

  lemma FirstText(a: Atom, rest: seq<Atom>)
    ensures AtomTexts([a] + rest) == [AtomText(a)] + AtomTexts(rest)
  {
    hide AtomText;
  }

  // ----- What the clause means

  /** The atoms from `i` to `j` are joined by AND, all of them hold, and none of their neighbours is joined
      to them by AND. */
  ghost predicate RunHolds(chain: Chain, truth: Atom -> bool, i: nat, j: nat, n: nat)
    requires chain.Valid() && n < |chain.atoms|
  {
    && i <= j <= n
    && (i > 0 ==> !Joins(chain.connectives[i - 1])) && (j < n ==> !Joins(chain.connectives[j]))
    && (forall k | i <= k < j :: Joins(chain.connectives[k]))
    && (forall k | i <= k <= j :: truth(chain.atoms[k]))
  }

  lemma {:induction false} ReadsRuns(chain: Chain, truth: Atom -> bool, n: nat)
    requires chain.Valid() && n < |chain.atoms|
    ensures var (before, last) := chain.Reads(truth, n);
      && (last <==> exists i: nat :: RunHolds(chain, truth, i, n, n))
      && (before <==> exists i: nat, j: nat :: j < n && RunHolds(chain, truth, i, j, n))
  {
    if n == 0 {
      assert truth(chain.atoms[0]) ==> RunHolds(chain, truth, 0, 0, 0);
    } else {
      var m := n - 1;
      ReadsRuns(chain, truth, m);
      forall i: nat, j: nat | j < m ensures RunHolds(chain, truth, i, j, n) <==> RunHolds(chain, truth, i, j, m) {}
      if Joins(chain.connectives[m]) {
        forall i: nat
          ensures !RunHolds(chain, truth, i, m, n)
          ensures RunHolds(chain, truth, i, n, n) <==> RunHolds(chain, truth, i, m, m) && truth(chain.atoms[n])
        {}
      } else {
        forall i: nat
          ensures RunHolds(chain, truth, i, m, n) <==> RunHolds(chain, truth, i, m, m)
          ensures RunHolds(chain, truth, i, n, n) <==> i == n && truth(chain.atoms[n])
        {}
        assert RunHolds(chain, truth, n, n, n) <==> truth(chain.atoms[n]);
      }
    }
  }

  /** The precedence of SQL: a clause holds when all atoms of some longest run of ANDs hold. */
  lemma ChainHoldsExactly(chain: Chain, truth: Atom -> bool)
    requires chain.Valid()
    ensures var n := |chain.atoms| - 1;
      chain.Holds(truth) <==> exists i: nat, j: nat :: RunHolds(chain, truth, i, j, n)
  {
    ReadsRuns(chain, truth, |chain.atoms| - 1);
  }

  ghost predicate AllRules(rules: seq<FilterRule>, truth: Atom -> bool) {
    forall r | r in rules :: truth(Atom.Rule(r))
  }

  ghost predicate SomeRule(rules: seq<FilterRule>, truth: Atom -> bool) {
    exists r :: r in rules && truth(Atom.Rule(r))
  }

  ghost predicate AllBounds(bounds: seq<Atom>, truth: Atom -> bool) {
    forall b | b in bounds :: truth(b)
  }

  lemma {:induction false} ReadsAnd(chain: Chain, truth: Atom -> bool, n: nat)
    requires chain.Valid() && n < |chain.atoms| && forall k | 0 <= k < n :: Joins(chain.connectives[k])
    ensures chain.Reads(truth, n) == (false, forall i | 0 <= i <= n :: truth(chain.atoms[i]))
  {
    if n > 0 { ReadsAnd(chain, truth, n - 1); }
  }

  lemma {:induction false} ReadsOr(chain: Chain, truth: Atom -> bool, n: nat)
    requires chain.Valid() && n < |chain.atoms| && forall k | 0 <= k < n :: !Joins(chain.connectives[k])
    ensures chain.Reads(truth, n) == (exists i | 0 <= i < n :: truth(chain.atoms[i]), truth(chain.atoms[n]))
  {
    if n > 0 { ReadsOr(chain, truth, n - 1); }
  }

  /** A run of ANDs only narrows the last alternative. */
  lemma {:induction false} ReadsTail(chain: Chain, truth: Atom -> bool, m: nat, n: nat)
    requires chain.Valid() && m <= n < |chain.atoms|
    requires forall k | m <= k < n :: Joins(chain.connectives[k])
    ensures var (before, last) := chain.Reads(truth, m);
      chain.Reads(truth, n) == (before, last && forall i | m < i <= n :: truth(chain.atoms[i]))
    decreases n
  {
    if n > m { ReadsTail(chain, truth, m, n - 1); }
  }

  /** The meaning depends on the atoms of the chain alone. */
  lemma {:induction false} ReadsAgree(chain: Chain, f: Atom -> bool, g: Atom -> bool, n: nat)
    requires chain.Valid() && n < |chain.atoms| && forall a | a in chain.atoms :: f(a) == g(a)
    ensures chain.Reads(f, n) == chain.Reads(g, n)
  {
    assert chain.atoms[n] in chain.atoms;
    if n > 0 { ReadsAgree(chain, f, g, n - 1); }
  }

  lemma AtomsAre(rules: seq<FilterRule>, logic: string, bounds: seq<Atom>, truth: Atom -> bool)
    requires rules != []
    ensures var atoms := WhereChain(rules, logic, bounds).atoms;
      && (AllRules(rules, truth) <==> forall i | 0 <= i < |rules| :: truth(atoms[i]))
      && (AllBounds(bounds, truth) <==> forall i | |rules| <= i < |rules| + |bounds| :: truth(atoms[i]))
      && (SomeRule(rules[..|rules| - 1], truth) <==> exists i | 0 <= i < |rules| - 1 :: truth(atoms[i]))
  {
    var atoms := WhereChain(rules, logic, bounds).atoms;
    assert forall i | 0 <= i < |rules| :: atoms[i] == Atom.Rule(rules[i]) && rules[i] in rules;
    assert forall i | 0 <= i < |bounds| :: atoms[|rules| + i] == bounds[i];
    assert forall i | |rules| <= i < |rules| + |bounds| :: atoms[i] == bounds[i - |rules|];
    assert forall i | 0 <= i < |rules| - 1 :: rules[..|rules| - 1][i] == rules[i];
  }

  /** Rules joined by AND: the clause means all rules and both bounds. */
  lemma AndMeansAll(rules: seq<FilterRule>, bounds: seq<Atom>, truth: Atom -> bool)
    requires rules != []
    ensures var chain := WhereChain(rules, "AND", bounds);
      chain.Valid() && (chain.Holds(truth) <==> AllRules(rules, truth) && AllBounds(bounds, truth))
  {
    var chain := WhereChain(rules, "AND", bounds);
    WhereChainValid(rules, "AND", bounds);
    KeywordsAre();
    hide Joins;
    ReadsAnd(chain, truth, |chain.atoms| - 1);
    AtomsAre(rules, "AND", bounds, truth);
  }

  /** Rules joined by OR: the bounds narrow the last rule alone. */
  lemma OrBindsLast(rules: seq<FilterRule>, bounds: seq<Atom>, truth: Atom -> bool)
    requires rules != []
    ensures var chain := WhereChain(rules, "OR", bounds);
      && chain.Valid()
      && (chain.Holds(truth) <==>
          SomeRule(rules[..|rules| - 1], truth)
          || (truth(Atom.Rule(rules[|rules| - 1])) && AllBounds(bounds, truth)))
  {
    var chain := WhereChain(rules, "OR", bounds);
    var m := |rules| - 1;
    WhereChainValid(rules, "OR", bounds);
    KeywordsAre();
    hide Joins;
    ReadsOr(chain, truth, m);
    ReadsTail(chain, truth, m, m + |bounds|);
    AtomsAre(rules, "OR", bounds, truth);
    assert chain.atoms[m] == Atom.Rule(rules[m]);
  }

  lemma SomeRuleSplits(rules: seq<FilterRule>, truth: Atom -> bool)
    requires rules != []
    ensures SomeRule(rules, truth)
       <==> SomeRule(rules[..|rules| - 1], truth) || truth(Atom.Rule(rules[|rules| - 1]))
  {
    var m := |rules| - 1;
    assert rules == rules[..m] + [rules[m]];
  }

  /** Alone, the fragment of an OR list means what the form shows. */
  lemma OrAloneMeansSome(rules: seq<FilterRule>, truth: Atom -> bool)
    requires rules != []
    ensures var chain := WhereChain(rules, "OR", []);
      chain.Valid() && (chain.Holds(truth) <==> SomeRule(rules, truth))
  {
    OrBindsLast(rules, [], truth);
    SomeRuleSplits(rules, truth);
  }

  /** With bounds, the clause of an OR list selects what the form shows within the bounds exactly
      when the row lies within them or satisfies no rule but the last. */
  lemma OrWithBoundsExactly(rules: seq<FilterRule>, bounds: seq<Atom>, truth: Atom -> bool)
    requires rules != []
    ensures var chain := WhereChain(rules, "OR", bounds);
      && chain.Valid()
      && ((chain.Holds(truth) <==> SomeRule(rules, truth) && AllBounds(bounds, truth))
          <==> AllBounds(bounds, truth) || !SomeRule(rules[..|rules| - 1], truth))
  {
    OrBindsLast(rules, bounds, truth);
    SomeRuleSplits(rules, truth);
  }

  /** The clause of an OR list selects, for every row, what the form shows within the bounds. */
  ghost predicate OrClauseRight(rules: seq<FilterRule>, bounds: seq<Atom>)
    requires rules != [] && WhereChain(rules, "OR", bounds).Valid()
  {
    forall truth: Atom -> bool ::
      WhereChain(rules, "OR", bounds).Holds(truth) <==> SomeRule(rules, truth) && AllBounds(bounds, truth)
  }

  /** It does so if and only if there is one rule only, or no bound. */
  lemma OrClauseRightExactly(rules: seq<FilterRule>, bounds: seq<Atom>)
    requires rules != [] && forall b | b in bounds :: !b.Rule?
    ensures WhereChain(rules, "OR", bounds).Valid()
    ensures OrClauseRight(rules, bounds) <==> |rules| == 1 || bounds == []
  {
    WhereChainValid(rules, "OR", bounds);
    if |rules| == 1 || bounds == [] {
      forall truth: Atom -> bool
        ensures WhereChain(rules, "OR", bounds).Holds(truth) <==> SomeRule(rules, truth) && AllBounds(bounds, truth)
      {
        OrWithBoundsExactly(rules, bounds, truth);
      }
    } else {
      var truth := (a: Atom) => a.Rule?;
      OrBindsLast(rules, bounds, truth);
      assert rules[..|rules| - 1][0] in rules[..|rules| - 1] && bounds[0] in bounds;
      assert WhereChain(rules, "OR", bounds).Holds(truth) && !AllBounds(bounds, truth);
    }
  }

  lemma PlainWord(field: string, op: string, value: string)
    requires field == "a" || field == "b"
    requires op == "==" && value == "1"
    ensures Plain(FilterRule(field, op, value))
  {
    forall i | 0 <= i <= |value| ensures ConnectiveAt(value[i..]) == None {
      assert i == 0 ==> value[i..] == value;
      assert Spaces(value[i..]) == 0;
    }
  }

  /** Two plain rules and a bound: a row before the start is selected because the first rule holds. */
  lemma OrEscapesBound(start: string)
    ensures var rules := [FilterRule("a", "==", "1"), FilterRule("b", "==", "1")];
      var bounds := Bounds("ts", Some(start), None);
      var truth := (a: Atom) => a == Atom.Rule(rules[0]);
      && (forall r | r in rules :: Plain(r))
      && WhereChain(rules, "OR", bounds).Valid()
      && WhereChain(rules, "OR", bounds).Holds(truth)
      && !AllBounds(bounds, truth)
  {
    var rules := [FilterRule("a", "==", "1"), FilterRule("b", "==", "1")];
    var bounds := Bounds("ts", Some(start), None);
    var truth := (a: Atom) => a == Atom.Rule(rules[0]);
    PlainWord("a", "==", "1");
    PlainWord("b", "==", "1");
    OrBindsLast(rules, bounds, truth);
    assert rules[..1] == [rules[0]] && rules[..1][0] in rules[..1];
    assert bounds == [From("ts", start)] && bounds[0] in bounds;
  }

  // ----- Reading the text back

  /** The length of the connective, with a blank on either side, that the text starts with. */
  function KeywordAt(t: string): (n: nat)
    ensures n > 0 ==> n + 2 <= |t|
  {
    if |t| >= 5 && t[0] == ' ' && Same(t[1..4], "and") && t[4] == ' ' then 3
    else if |t| >= 4 && t[0] == ' ' && Same(t[1..3], "or") && t[3] == ' ' then 2
    else 0
  }

  predicate BeginsNoKeyword(ch: char) {
    Lower(ch) != 'a' && Lower(ch) != 'o'
  }

  /** A reader of the clause: the pieces between the connectives that stand outside string literals,
      and those connectives. */
  function ReadClause(t: string, quoted: bool): (r: (seq<string>, seq<string>))
    ensures |r.0| == |r.1| + 1
    decreases |t|
  {
    if t == [] then ([""], [])
    else if quoted && t[0] == '\\' && |t| > 1 then Prepend(t[..2], ReadClause(t[2..], true))
    else if !quoted && KeywordAt(t) > 0 then
      var n := KeywordAt(t);
      var (pieces, keywords) := ReadClause(t[n + 2..], false);
      ([""] + pieces, [t[1..n + 1]] + keywords)
    else Prepend([t[0]], ReadClause(t[1..], if t[0] == '\'' then !quoted else quoted))
  }

  /** No connective starts in `u` when `next` follows it, and no literal. */
  predicate Bare(u: string, next: string) {
    forall i | 0 <= i < |u| ::
      && u[i] != '\''
      && (u[i] == ' ' ==> i + 1 < |u + next| && BeginsNoKeyword((u + next)[i + 1]))
  }

  lemma ReadOne(t: string, quoted: bool)
    requires t != [] && !(quoted && t[0] == '\\')
    requires t[0] == ' ' && !quoted ==> |t| > 1 && BeginsNoKeyword(t[1])
    ensures ReadClause(t, quoted) == Prepend([t[0]], ReadClause(t[1..], if t[0] == '\'' then !quoted else quoted))
  {
    assert |t| >= 5 ==> t[1..4][0] == t[1];
    assert |t| >= 4 ==> t[1..3][0] == t[1];
  }

  lemma {:induction false} ReadBare(u: string, next: string)
    requires Bare(u, next)
    ensures ReadClause(u + next, false) == Prepend(u, ReadClause(next, false))
  {
    if u == [] {
      PrependNothing(ReadClause(next, false));
      assert u + next == next;
    } else {
      var t := u + next;
      assert t[1..] == u[1..] + next && t[0] == u[0];
      assert u[0] == ' ' ==> BeginsNoKeyword(t[1]);
      BareTail(u, next);
      ReadOne(t, false);
      ReadBare(u[1..], next);
      PrependTwice([u[0]], u[1..], ReadClause(next, false));
      assert [u[0]] + u[1..] == u;
    }
  }

  lemma BareTail(u: string, next: string)
    requires Bare(u, next) && u != []
    ensures Bare(u[1..], next)
  {
    assert forall i | 0 <= i < |u| - 1 :: u[1..][i] == u[i + 1];
    assert forall i | 0 <= i < |u + next| - 1 :: (u[1..] + next)[i] == (u + next)[i + 1];
  }

  lemma PrependNothing(r: (seq<string>, seq<string>))
    requires r.0 != []
    ensures Prepend("", r) == r
  {
    assert "" + r.0[0] == r.0[0] && [r.0[0]] + r.0[1..] == r.0;
  }

  lemma {:induction false} EscapedBody(v: string)
    requires '\\' !in v
    ensures LiteralBody(EscapeQuotes(v))
  {
    if v != "" {
      assert v[0] in v;
      EscapedBody(v[1..]);
      var rest := EscapeQuotes(v[1..]);
      assert ("\\'" + rest)[2..] == rest && ([v[0]] + rest)[1..] == rest;
    }
  }

  lemma ReadEscape(t: string)
    requires |t| > 1 && t[0] == '\\'
    ensures ReadClause(t, true) == Prepend(t[..2], ReadClause(t[2..], true))
  {
  }

  /** The rest of a literal, in which every quote is escaped. */
  lemma {:induction false} ReadQuoted(v: string, next: string)
    requires LiteralBody(v)
    ensures ReadClause(v + ("'" + next), true) == Prepend(v + "'", ReadClause(next, false))
  {
    var t := v + ("'" + next);
    if v == [] {
      assert t == "'" + next && t[1..] == next && v + "'" == ['\''];
      ReadOne(t, true);
    } else if v[0] == '\\' {
      assert t[..2] == v[..2] && t[2..] == v[2..] + ("'" + next);
      ReadEscape(t);
      ReadQuoted(v[2..], next);
      PrependTwice(v[..2], v[2..] + "'", ReadClause(next, false));
      assert v[..2] + (v[2..] + "'") == v + "'";
    } else {
      assert t[0] == v[0] && t[1..] == v[1..] + ("'" + next);
      ReadOne(t, true);
      ReadQuoted(v[1..], next);
      PrependTwice([v[0]], v[1..] + "'", ReadClause(next, false));
      assert [v[0]] + (v[1..] + "'") == v + "'";
    }
  }

  /** An atom: bare text, a literal, and bare text again. */
  lemma ReadLiteral(before: string, v: string, after: string, next: string)
    requires Bare(before, "'") && LiteralBody(v) && Bare(after, next)
    ensures var text := before + "'" + v + "'" + after;
      ReadClause(text + next, false) == Prepend(text, ReadClause(next, false))
  {
    hide ReadClause, Bare, Prepend;
    var rest := ReadClause(next, false);
    var t1 := after + next;
    var t2 := v + ("'" + t1);
    ReadBare(after, next);
    ReadQuoted(v, t1);
    OpenQuote(t2);
    BareBeforeQuote(before, t2);
    ReadBare(before, "'" + t2);
    PrependTwice(v + "'", after, rest);
    PrependTwice("'", v + "'" + after, rest);
    PrependTwice(before, "'" + (v + "'" + after), rest);
    LiteralGroups(before, v, after, next);
  }

  lemma OpenQuote(t: string)
    ensures ReadClause("'" + t, false) == Prepend("'", ReadClause(t, true))
  {
    assert ("'" + t)[1..] == t && ['\''] == "'";
    ReadOne("'" + t, false);
  }

  lemma LiteralGroups(before: string, v: string, after: string, next: string)
    ensures before + ("'" + (v + "'" + after)) == before + "'" + v + "'" + after
    ensures before + "'" + v + "'" + after + next == before + ("'" + (v + ("'" + (after + next))))
  {
  }

  lemma BareBeforeQuote(u: string, rest: string)
    requires Bare(u, "'")
    ensures Bare(u, "'" + rest)
  {
    assert forall i | 0 <= i <= |u| :: (u + "'")[i] == (u + ("'" + rest))[i];
  }

  lemma BareConcat(u: string, w: string, next: string)
    requires Bare(u, w + next) && Bare(w, next)
    ensures Bare(u + w, next)
  {
    assert u + w + next == u + (w + next);
    forall i | 0 <= i < |u + w|
      ensures (u + w)[i] != '\''
      ensures (u + w)[i] == ' ' ==> i + 1 < |u + w + next| && BeginsNoKeyword((u + w + next)[i + 1])
    {
      if i >= |u| {
        assert (u + w)[i] == w[i - |u|];
        assert forall j | |u| <= j < |u + w + next| :: (u + w + next)[j] == (w + next)[j - |u|];
      }
    }
  }

  lemma BareSolid(u: string, next: string)
    requires ' ' !in u && '\'' !in u
    ensures Bare(u, next)
  {
    forall i | 0 <= i < |u| ensures u[i] != '\'' && u[i] != ' ' { assert u[i] in u; }
  }

  lemma BareBlank(next: string)
    requires next != [] && BeginsNoKeyword(next[0])
    ensures Bare(" ", next)
  {
    assert (" " + next)[1] == next[0];
  }

  /** Any rule that the server matches, a search without backslashes, or a bound, on columns of word
      characters. */
  predicate Readable(a: Atom) {
    match a
    case Rule(rule) => IsColumn(rule.field) && OperatorText(rule.op) && LiteralBody(rule.value)
    case Anywhere(column, text) => IsColumn(column) && '\\' !in text
    case From(column, start) => IsColumn(column) && '\'' !in start && '\\' !in start
    case Until(column, end) => IsColumn(column) && '\'' !in end && '\\' !in end
  }

  lemma WordsAreSolid(t: string)
    requires forall ch | ch in t :: IsWord(ch)
    ensures ' ' !in t && '\'' !in t
  {
    assert !IsWord(' ') && !IsWord('\'');
  }

  /** What stands before the literal of a comparison, and of a call. */
  lemma BareComparison(field: string, op: string)
    requires IsColumn(field) && op in {"=", "!=", ">=", "<=", ">", "<"}
    ensures Bare(field + " " + op + " ", "'")
  {
    WordsAreSolid(field);
    BareSolid(field, " " + op + " " + "'");
    BareSolid(op, " " + "'");
    BareBlank("'");
    BareConcat(op, " ", "'");
    BareBlank(op + " " + "'");
    assert op + " " + "'" == (op + " ") + "'";
    BareConcat(" ", op + " ", "'");
    assert " " + op + " " + "'" == (" " + (op + " ")) + "'";
    BareConcat(field, " " + (op + " "), "'");
    assert field + (" " + (op + " ")) == field + " " + op + " ";
  }

  lemma BareCall(field: string)
    requires IsColumn(field)
    ensures Bare("positionCaseInsensitive(toString(" + field + "), ", "'")
  {
    var head := "positionCaseInsensitive(toString(";
    WordsAreSolid(field);
    BareBlank("'");
    BareSolid("),", " " + "'");
    BareConcat("),", " ", "'");
    assert ")," + " " == "), ";
    BareSolid(field, "), " + "'");
    BareConcat(field, "), ", "'");
    BareSolid(head, field + "), " + "'");
    assert field + "), " + "'" == (field + "), ") + "'";
    BareConcat(head, field + "), ", "'");
    assert head + (field + "), ") == head + field + "), ";
  }

  lemma BareBound(column: string, op: string)
    requires IsColumn(column) && (op == ">=" || op == "<")
    ensures Bare(column + " " + op + " parseDateTimeBestEffort(", "'")
  {
    hide Bare;
    var call := " parseDateTimeBestEffort(";
    BareTimeCall();
    BareRelation(op, call);
    WordsAreSolid(column);
    BareSolid(column, " " + (op + call) + "'");
    BareConcat(column, " " + (op + call), "'");
    assert column + (" " + (op + call)) == column + " " + op + call;
  }

  lemma BareTimeCall()
    ensures Bare(" parseDateTimeBestEffort(", "'")
  {
    var call := " parseDateTimeBestEffort(";
    assert (call + "'")[1] == 'p';
    forall i | 0 <= i < |call| ensures call[i] != '\'' && (call[i] == ' ' ==> i == 0) {}
  }

  lemma BareRelation(op: string, call: string)
    requires (op == ">=" || op == "<") && Bare(call, "'")
    ensures Bare(" " + (op + call), "'")
  {
    hide Bare;
    BareSolid(op, call + "'");
    BareConcat(op, call, "'");
    assert (op + call + "'")[0] == op[0];
    BareBlank(op + call + "'");
    BareConcat(" ", op + call, "'");
  }

  lemma BareEnds(next: string)
    ensures Bare("", next) && Bare(")", next) && Bare(") > 0", next)
  {
    assert forall i | 0 <= i < 5 :: (") > 0" + next)[i] == ") > 0"[i];
  }

  lemma RuleTextIs(rule: FilterRule)
    requires OperatorText(rule.op)
    ensures if Same(rule.op, "contains")
            then Condition(rule) == ("positionCaseInsensitive(toString(" + rule.field + "), ") + "'" + rule.value + "'" + ") > 0"
            else SqlOperator(rule.op) in {"=", "!=", ">=", "<=", ">", "<"}
                 && Condition(rule) == (rule.field + " " + SqlOperator(rule.op) + " ") + "'" + rule.value + "'" + ""
  {
    var f, v := rule.field, rule.value;
    if Same(rule.op, "contains") {
      assert "), '" == "), " + "'" && "') > 0" == "'" + ") > 0";
      var head := "positionCaseInsensitive(toString(";
      assert head + f + ("), " + "'") + v + ("'" + ") > 0") == (head + f + "), ") + "'" + v + "'" + ") > 0";
    } else {
      assert " '" == " " + "'";
      var op := SqlOperator(rule.op);
      assert f + " " + op + (" " + "'") + v + "'" == (f + " " + op + " ") + "'" + v + "'" + "";
    }
  }

  lemma SearchGroups(column: string, literal: string)
    ensures "positionCaseInsensitive(toString(" + column + "), '" + literal + "') > 0"
         == ("positionCaseInsensitive(toString(" + column + "), ") + "'" + literal + "'" + ") > 0"
  {
    assert "), '" == "), " + "'" && "') > 0" == "'" + ") > 0";
    var head := "positionCaseInsensitive(toString(";
    assert head + column + ("), " + "'") + literal + ("'" + ") > 0")
        == (head + column + "), ") + "'" + literal + "'" + ") > 0";
  }

  /** An atom's text around its literal. */
  datatype Parts = Parts(before: string, literal: string, after: string) {
    function Text(): string {
      before + "'" + literal + "'" + after
    }

    predicate Readable(next: string) {
      Bare(before, "'") && LiteralBody(literal) && Bare(after, next)
    }
  }

  function PartsOf(a: Atom): Parts {
    match a
    case Rule(rule) =>
      if Same(rule.op, "contains")
      then Parts("positionCaseInsensitive(toString(" + rule.field + "), ", rule.value, ") > 0")
      else Parts(rule.field + " " + SqlOperator(rule.op) + " ", rule.value, "")
    case Anywhere(column, text) =>
      Parts("positionCaseInsensitive(toString(" + column + "), ", EscapeQuotes(text), ") > 0")
    case From(column, start) => Parts(column + " " + ">=" + " parseDateTimeBestEffort(", start, ")")
    case Until(column, end) => Parts(column + " " + "<" + " parseDateTimeBestEffort(", end, ")")
  }

  lemma PartsReadable(a: Atom, next: string)
    requires Readable(a)
    ensures PartsOf(a).Readable(next)
  {
    hide Bare;
    BareEnds(next);
    match a
    case Rule(rule) =>
      RuleTextIs(rule);
      if Same(rule.op, "contains") { BareCall(rule.field); } else { BareComparison(rule.field, SqlOperator(rule.op)); }
    case Anywhere(column, text) =>
      BareCall(column);
      EscapedBody(text);
    case From(column, start) =>
      BareBound(column, ">=");
      PlainBody(start);
    case Until(column, end) =>
      BareBound(column, "<");
      PlainBody(end);
  }

  lemma PartsText(a: Atom)
    requires Readable(a)
    ensures AtomText(a) == PartsOf(a).Text()
  {
    if a.Rule? { RuleTextIs(a.rule); }
    if a.Anywhere? { SearchGroups(a.column, EscapeQuotes(a.text)); }
  }

  lemma ReadAtom(a: Atom, next: string)
    requires Readable(a)
    ensures ReadClause(AtomText(a) + next, false) == Prepend(AtomText(a), ReadClause(next, false))
  {
    hide ReadClause, Prepend, Bare, AtomText, PartsOf, Readable;
    PartsText(a);
    PartsReadable(a, next);
    var parts := PartsOf(a);
    ReadLiteral(parts.before, parts.literal, parts.after, next);
  }

  // ----- The chain read back

  /** Pieces and connectives that come before what is read. */
  function After(pieces: seq<string>, keywords: seq<string>, r: (seq<string>, seq<string>)): (seq<string>, seq<string>) {
    (pieces + r.0, keywords + r.1)
  }

  lemma ReadKeyword(keyword: string, next: string)
    requires KeywordText(keyword)
    ensures var r := ReadClause(next, false);
      ReadClause(" " + (keyword + (" " + next)), false) == ([""] + r.0, [keyword] + r.1)
  {
    var t := " " + (keyword + (" " + next));
    var n := |keyword|;
    assert t[1..n + 1] == keyword && t[n + 1] == ' ' && t[n + 2..] == next;
    if n == 2 {
      assert |t| >= 5 ==> t[1..4][1] == keyword[1];
    }
  }

  lemma ReadConnective(piece: string, keyword: string, next: string)
    requires KeywordText(keyword)
    ensures var r := ReadClause(next, false);
      Prepend(piece, ReadClause(" " + keyword + " " + next, false)) == ([piece] + r.0, [keyword] + r.1)
  {
    hide ReadClause;
    var r := ReadClause(next, false);
    ReadKeyword(keyword, next);
    assert " " + (keyword + (" " + next)) == " " + keyword + " " + next;
    assert piece + "" == piece && ([""] + r.0)[1..] == r.0;
  }

  /** What `ReadParts` says of the atoms up to the last one. */
  function PartsRead(atoms: seq<Atom>, keywords: seq<string>, next: string): (seq<string>, seq<string>)
    requires |atoms| == |keywords| + 1
  {
    var n := |keywords|;
    After(AtomTexts(atoms[..n]), keywords, Prepend(AtomText(atoms[n]), ReadClause(next, false)))
  }

  lemma {:induction false} ReadParts(atoms: seq<Atom>, keywords: seq<string>, next: string)
    requires |atoms| == |keywords| + 1 && (forall a | a in atoms :: Readable(a))
    requires forall k | k in keywords :: KeywordText(k)
    ensures ReadClause(Interleave(AtomTexts(atoms), keywords) + next, false) == PartsRead(atoms, keywords, next)
    decreases |keywords|
  {
    hide ReadClause, Prepend, Readable, AtomText, AtomTexts, Interleave, After, KeywordText, PartsRead;
    var n := |keywords|;
    assert atoms[n] in atoms;
    ReadAtom(atoms[n], next);
    if n == 0 {
      OneText(atoms, keywords, next);
    } else {
      assert keywords[n - 1] in keywords;
      assert (forall a | a in atoms[..n] :: a in atoms) && forall k | k in keywords[..n - 1] :: k in keywords;
      var last := AtomText(atoms[n]) + next;
      ReadParts(atoms[..n], keywords[..n - 1], " " + keywords[n - 1] + " " + last);
      LastLink(atoms, keywords, next);
      ReadLink(atoms, keywords, next);
    }
  }

  lemma OneText(atoms: seq<Atom>, keywords: seq<string>, next: string)
    requires |atoms| == 1 && keywords == []
    ensures Interleave(AtomTexts(atoms), keywords) == AtomText(atoms[0])
    ensures PartsRead(atoms, keywords, next) == Prepend(AtomText(atoms[0]), ReadClause(next, false))
  {
    hide ReadClause, Prepend, AtomText;
    AfterNothing(Prepend(AtomText(atoms[0]), ReadClause(next, false)));
    assert AtomTexts(atoms[..0]) == [];
  }

  lemma LastKeyword(keywords: seq<string>)
    requires keywords != []
    ensures keywords == keywords[..|keywords| - 1] + [keywords[|keywords| - 1]]
  {
  }

  lemma LastLink(atoms: seq<Atom>, keywords: seq<string>, next: string)
    requires |atoms| == |keywords| + 1 && keywords != []
    ensures var n := |keywords|;
      Interleave(AtomTexts(atoms), keywords) + next
      == Interleave(AtomTexts(atoms[..n]), keywords[..n - 1]) + (" " + keywords[n - 1] + " " + (AtomText(atoms[n]) + next))
  {
    hide *;
    var n := |keywords|;
    LastText(atoms);
    LastKeyword(keywords);
    LastPart(AtomTexts(atoms[..n]), keywords[..n - 1], keywords[n - 1], AtomText(atoms[n]), next);
  }

  lemma ReadLink(atoms: seq<Atom>, keywords: seq<string>, next: string)
    requires |atoms| == |keywords| + 1 && keywords != [] && KeywordText(keywords[|keywords| - 1])
    requires var n := |keywords|;
      var last := AtomText(atoms[n]);
      ReadClause(last + next, false) == Prepend(last, ReadClause(next, false))
    ensures var n := |keywords|;
      var link := " " + keywords[n - 1] + " " + (AtomText(atoms[n]) + next);
      PartsRead(atoms[..n], keywords[..n - 1], link) == PartsRead(atoms, keywords, next)
  {
    hide ReadClause, Prepend, AtomText, AtomTexts, After, KeywordText;
    var n := |keywords|;
    var (front, piece) := (atoms[..n - 1], AtomText(atoms[n - 1]));
    var last := AtomText(atoms[n]) + next;
    ReadConnective(piece, keywords[n - 1], last);
    AfterOne(AtomTexts(front), keywords[..n - 1], piece, keywords[n - 1], ReadClause(last, false));
    assert atoms[..n][..n - 1] == front && keywords[..n - 1] + [keywords[n - 1]] == keywords;
    LastText(atoms[..n]);
  }

  lemma AfterNothing(r: (seq<string>, seq<string>))
    ensures After([], [], r) == r
  {
    assert [] + r.0 == r.0 && [] + r.1 == r.1;
  }

  lemma AfterOne(pieces: seq<string>, keywords: seq<string>, piece: string, keyword: string, r: (seq<string>, seq<string>))
    ensures After(pieces, keywords, ([piece] + r.0, [keyword] + r.1)) == After(pieces + [piece], keywords + [keyword], r)
  {
    assert pieces + ([piece] + r.0) == pieces + [piece] + r.0;
    assert keywords + ([keyword] + r.1) == keywords + [keyword] + r.1;
  }

  lemma LastPart(parts: seq<string>, keywords: seq<string>, keyword: string, part: string, next: string)
    requires |parts| == |keywords| + 1
    ensures Interleave(parts + [part], keywords + [keyword]) + next
         == Interleave(parts, keywords) + (" " + keyword + " " + (part + next))
  {
    hide Interleave;
    InterleaveOne(parts, keywords, keyword, part);
    FiveParts(Interleave(parts, keywords), keyword, part, next);
  }

  lemma LastText(atoms: seq<Atom>)
    requires atoms != []
    ensures var n := |atoms| - 1; AtomTexts(atoms) == AtomTexts(atoms[..n]) + [AtomText(atoms[n])]
  {
    hide AtomText;
  }

  lemma FiveParts(a: string, b: string, d: string, e: string)
    ensures a + " " + b + " " + d + e == a + (" " + b + " " + (d + e))
  {
  }

  /** The text of a clause, read with string literals kept whole, gives back its atoms and its
      connectives. */
  lemma ClauseReadsBack(chain: Chain)
    requires chain.Valid() && forall a | a in chain.atoms :: Readable(a)
    ensures ReadClause(chain.Text(), false) == (AtomTexts(chain.atoms), chain.connectives)
  {
    hide AtomText, Readable;
    var n := |chain.connectives|;
    var last := AtomText(chain.atoms[n]);
    ReadParts(chain.atoms, chain.connectives, "");
    assert PartsRead(chain.atoms, chain.connectives, "")
        == After(AtomTexts(chain.atoms[..n]), chain.connectives, Prepend(last, ReadClause("", false)));
    assert chain.Text() + "" == chain.Text();
    var none: seq<string> := [];
    assert ReadClause("", false) == ([""], none) && last + "" == last && [""][1..] == none;
    assert Prepend(last, ([""], none)) == ([last], none) by { assert [last] + none == [last]; }
    assert AtomTexts(chain.atoms[..n]) + [last] == AtomTexts(chain.atoms);
    assert chain.connectives + none == chain.connectives;
  }

  /** The meaning of a clause text, given what its conditions mean for a row. */
  function TextReads(pieces: seq<string>, keywords: seq<string>, holds: string -> bool, n: nat): (bool, bool)
    requires |pieces| == |keywords| + 1 && n < |pieces|
  {
    if n == 0 then (false, holds(pieces[0]))
    else
      var (before, last) := TextReads(pieces, keywords, holds, n - 1);
      if Joins(keywords[n - 1]) then (before, last && holds(pieces[n])) else (before || last, holds(pieces[n]))
  }

  predicate TextHolds(text: string, holds: string -> bool) {
    var (pieces, keywords) := ReadClause(text, false);
    var (before, last) := TextReads(pieces, keywords, holds, |keywords|);
    before || last
  }

  function OnAtoms(holds: string -> bool): Atom -> bool {
    (a: Atom) => holds(AtomText(a))
  }

  lemma {:induction false} SameReads(chain: Chain, holds: string -> bool, n: nat)
    requires chain.Valid() && n < |chain.atoms|
    ensures TextReads(AtomTexts(chain.atoms), chain.connectives, holds, n) == chain.Reads(OnAtoms(holds), n)
  {
    if n > 0 { SameReads(chain, holds, n - 1); }
  }

  /** What the clause text means is what its chain means. */
  lemma TextMeansChain(chain: Chain, holds: string -> bool)
    requires chain.Valid() && forall a | a in chain.atoms :: Readable(a)
    ensures TextHolds(chain.Text(), holds) <==> chain.Holds(OnAtoms(holds))
  {
    ClauseReadsBack(chain);
    SameReads(chain, holds, |chain.connectives|);
  }

  lemma PlainReadable(rule: FilterRule)
    requires Plain(rule)
    ensures Readable(Atom.Rule(rule))
  {
    hide Unconnected, LiteralBody;
    PlainBody(rule.value);
    assert Same("contains", "contains");
  }

  lemma {:induction false} MatchedReadable(pieces: seq<string>)
    ensures match MatchRules(pieces)
            case Some(rules) => forall r | r in rules :: Readable(Atom.Rule(r))
            case None => true
  {
    hide MatchRule, Strip, Readable;
    if pieces != [] {
      var n := |pieces| - 1;
      MatchedReadable(pieces[..n]);
      match MatchRule(Strip(pieces[n]))
      case Some(rule) => RuleReadable(Strip(pieces[n]), rule);
      case None =>
    }
  }

  lemma RuleReadable(t: string, rule: FilterRule)
    requires MatchRule(t) == Some(rule)
    ensures Readable(Atom.Rule(rule))
  {
    hide MatchRule;
    MatchesExactly(t, rule);
  }

  /** Whatever the text is that the user typed, as long as a search for it holds no backslash, the clause
      that is sent means the flat chain of its rules, or of the search, and the bounds. */
  lemma TypedTextMeans(expr: string, searchColumn: string, bounds: seq<Atom>, holds: string -> bool)
    requires Strip(expr) != "" && IsColumn(searchColumn) && forall b | b in bounds :: Readable(b)
    requires MatchRules(Tokenize(Strip(expr)).0).None? ==> '\\' !in Strip(expr)
    ensures var sent := Where(Sql(expr, searchColumn), bounds);
      sent.Some? && (TextHolds(sent.value, holds) <==>
                     TypedChain(Strip(expr), searchColumn, bounds).Holds(OnAtoms(holds)))
  {
    hide TextHolds, Sql, Where, Tokenize, MatchRules, Readable;
    var chain := TypedChain(Strip(expr), searchColumn, bounds);
    TypedIsFlat(expr, searchColumn, bounds);
    TypedReadable(Strip(expr), searchColumn, bounds);
    TextMeansChain(chain, holds);
  }

  lemma TypedReadable(text: string, searchColumn: string, bounds: seq<Atom>)
    requires IsColumn(searchColumn) && forall b | b in bounds :: Readable(b)
    requires MatchRules(Tokenize(text).0).None? ==> '\\' !in text
    ensures forall a | a in TypedChain(text, searchColumn, bounds).atoms :: Readable(a)
  {
    hide Tokenize, MatchRules, LiteralBody, OperatorText;
    MatchedReadable(Tokenize(text).0);
  }

  /** From the rules of the form to the meaning of the text that is sent: rules are printed, parsed,
      emitted, joined with the bounds and read again, and what results is the flat chain. */
  lemma SentTextMeans(rules: seq<FilterRule>, logic: string, searchColumn: string, bounds: seq<Atom>,
                      holds: string -> bool)
    requires rules != [] && (forall r | r in rules :: Plain(r)) && (logic == "AND" || logic == "OR")
    requires forall b | b in bounds :: Readable(b)
    ensures var chain := WhereChain(rules, logic, bounds);
      var sent := Where(Sql(Predicate(rules, logic), searchColumn), bounds);
      chain.Valid() && sent.Some? && (TextHolds(sent.value, holds) <==> chain.Holds(OnAtoms(holds)))
  {
    hide Plain, TextHolds, Sql, Where;
    var chain := WhereChain(rules, logic, bounds);
    WhereIsFlat(rules, logic, searchColumn, bounds);
    forall a | a in chain.atoms ensures Readable(a) {
      if a !in bounds { PlainReadable(a.rule); }
    }
    TextMeansChain(chain, holds);
  }
}
