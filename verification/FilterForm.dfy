/** The filter form of the browser (`src/databridge/static/browser.js`): the rule list, the text that
    is sent to the server, and how they keep in step. */
module FilterForm {
  import opened Wrappers
  import opened FilterText

  /** The rules that have a field and a value. */
  function FilledIn(rules: seq<FilterRule>): (kept: seq<FilterRule>)
    ensures forall r :: r in kept <==> r in rules && r.field != "" && r.value != ""
  {
    if rules == [] then []
    else
      var last := rules[|rules| - 1];
      var before := FilledIn(rules[..|rules| - 1]);
      assert rules == rules[..|rules| - 1] + [last];
      if last.field != "" && last.value != "" then before + [last] else before
  }

  /** The order stays as it was. */
  lemma {:induction false} FilledInJoins(a: seq<FilterRule>, b: seq<FilterRule>)
    ensures FilledIn(a + b) == FilledIn(a) + FilledIn(b)
  {
    if b == [] {
      assert a + b == a && FilledIn(a) + [] == FilledIn(a);
    } else {
      var n := |b| - 1;
      FilledInJoins(a, b[..n]);
      assert (a + b)[..|a + b| - 1] == a + b[..n];
    }
  }

  lemma FilledInOne(rule: FilterRule)
    ensures FilledIn([rule]) == if rule.field == "" || rule.value == "" then [] else [rule]
  {
    assert [rule][..0] == [] && FilledIn([]) == [] && [] + [rule] == [rule];
  }

  /** The text that shows a rule list. */
  function FormText(rules: seq<FilterRule>, logic: string): string {
    if FilledIn(rules) == [] then "" else Predicate(FilledIn(rules), logic)
  }

  /** The text after `syncPredicateFromRules`: an empty list leaves the text that was there. */
  function Synced(query: string, rules: seq<FilterRule>, logic: string): string {
    if rules == [] then query else FormText(rules, logic)
  }

  /** The condition that the form shows. */
  function Shown(rules: seq<FilterRule>, logic: string): Option<string> {
    var kept := FilledIn(rules);
    if kept == [] then None else Some(Interleave(Conditions(kept), Repeat(logic, |kept| - 1)))
  }

  class FilterForm {
    var filterRules: seq<FilterRule>
    /** The connective of the select box. */
    var logic: string
    /** `_filterState.query`, which is what the server gets. */
    var query: string

    constructor ()
      ensures filterRules == [] && logic == "AND" && query == ""
    {
      filterRules, logic, query := [], "AND", "";
    }

    method SyncPredicateFromRules()
      modifies this`query
      ensures query == Synced(old(query), filterRules, logic)
    {
      if filterRules == [] { return; }
      var parts := FilledIn(filterRules);
      query := if parts == [] then "" else Predicate(parts, logic);
    }

    /** The new rule is not filled in, so that the text need not change. */
    method AddFilterRule()
      modifies this`filterRules
      ensures filterRules == old(filterRules) + [FilterRule("", "==", "")]
      ensures FormText(filterRules, logic) == old(FormText(filterRules, logic))
    {
      filterRules := filterRules + [FilterRule("", "==", "")];
      assert filterRules[..|filterRules| - 1] == old(filterRules);
    }

    method RemoveFilterRule(n: nat)
      requires n < |filterRules|
      modifies this`filterRules, this`query
      ensures filterRules == old(filterRules)[..n] + old(filterRules)[n + 1..]
      ensures query == Synced(old(query), filterRules, logic)
    {
      filterRules := filterRules[..n] + filterRules[n + 1..];
      SyncPredicateFromRules();
    }

    /** One field of a rule changes. */
    method OnRuleChange(n: nat, rule: FilterRule)
      requires n < |filterRules|
      modifies this`filterRules, this`query
      ensures filterRules == old(filterRules)[n := rule] && query == FormText(filterRules, logic)
    {
      filterRules := filterRules[n := rule];
      SyncPredicateFromRules();
    }

    /** The select box has no handler of its own. */
    method SelectLogic(choice: string)
      modifies this`logic
      ensures logic == choice
    {
      logic := choice;
    }

    method ApplyFilterModal()
      modifies this`query
      ensures query == Synced(old(query), filterRules, logic)
    {
      SyncPredicateFromRules();
    }

    /** Text typed by hand replaces the text of the rules; blank text clears the rules too. */
    method OnPredicateInput(value: string)
      modifies this`filterRules, this`query
      ensures query == value && filterRules == if Strip(value) == "" then [] else old(filterRules)
    {
      query := value;
      if Strip(value) == "" && filterRules != [] { filterRules := []; }
    }

    method ClearAll()
      modifies this`filterRules, this`query
      ensures filterRules == [] && query == ""
    {
      filterRules, query := [], "";
    }
  }

  /** The server recovers from the text of a rule list what the list shows; rules that are not filled
      in play no part. */
  lemma RecoversForm(rules: seq<FilterRule>, logic: string, searchColumn: string)
    requires forall r | r in rules && r.field != "" && r.value != "" :: Plain(r)
    requires logic == "AND" || logic == "OR"
    ensures Sql(FormText(rules, logic), searchColumn) == Shown(rules, logic)
  {
    hide Tokenize, MatchRules, Plain;
    if FilledIn(rules) != [] {
      RecoversRules(FilledIn(rules), logic, searchColumn);
    } else {
      assert Strip("") == "";
    }
  }

  /** After a sync the server filters by what the form shows if and only if the list is not empty, or
      the text was blank before. */
  lemma SyncedExactly(query: string, rules: seq<FilterRule>, logic: string, searchColumn: string)
    requires forall r | r in rules && r.field != "" && r.value != "" :: Plain(r)
    requires logic == "AND" || logic == "OR"
    ensures Sql(Synced(query, rules, logic), searchColumn) == Shown(rules, logic)
       <==> rules != [] || Strip(query) == ""
  {
    hide Tokenize, MatchRules, Plain;
    RecoversForm(rules, logic, searchColumn);
  }

  /** A form with one rule, and then without it: no rule is shown, and the server still filters by the
      one that was removed. */
  lemma RemovedRuleStays(rule: FilterRule, logic: string, searchColumn: string)
    requires Plain(rule) && (logic == "AND" || logic == "OR")
    ensures var before := Synced("", [rule], logic);
      var after := Synced(before, [], logic);
      && after == Print(rule)
      && Shown([], logic) == None && Sql(after, searchColumn) == Some(Condition(rule))
  {
    hide Plain, Sql, Print, Condition, FilledIn;
    OneFilledIn(rule);
    RecoversRules([rule], logic, searchColumn);
    OneRuleText(rule, logic);
  }

  lemma OneRuleText(rule: FilterRule, logic: string)
    ensures Predicate([rule], logic) == Print(rule)
    ensures Interleave(Conditions([rule]), Repeat(logic, 0)) == Condition(rule)
  {
    hide Print, Condition;
    assert Conditions([rule]) == [Condition(rule)] && PrintAll([rule]) == [Print(rule)];
  }

  lemma OneFilledIn(rule: FilterRule)
    requires Plain(rule)
    ensures FilledIn([rule]) == [rule] && FilledIn([]) == []
  {
    hide Unconnected;
    var rules := [rule];
    assert rules[..0] == [] && [] + [rule] == rules;
  }
}
