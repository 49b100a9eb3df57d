/** Ordered rule tables resolved first-match-wins: the loop shared by
    `getCampus`, `getFacultyTitle` and `getSchoolOnCampus`. */
module Rules {
  import opened Wrappers
  import opened Text
  import opened Patterns

  /** One table entry: a `key` pattern and what the entry stands for. */
  datatype Rule<L> = Rule(key: Pattern, name: L)

  /** Rule `i` matches `s` and no rule before it does. */
  predicate IsFirstMatch<L>(rules: seq<Rule<L>>, s: string, i: int)
  {
    && 0 <= i < |rules|
    && Matches(s, rules[i].key)
    && forall j | 0 <= j < i :: !Matches(s, rules[j].key)
  }

  /** No rule of the table matches `s`. */
  predicate NoRuleMatches<L>(rules: seq<Rule<L>>, s: string)
  {
    forall j | 0 <= j < |rules| :: !Matches(s, rules[j].key)
  }

  /** Index of the first rule at or after `from` whose key matches `s`. */
  function FirstMatchFrom<L>(rules: seq<Rule<L>>, s: string, from: nat): (r: Option<nat>)
    requires from <= |rules|
    ensures r.Some? ==> from <= r.value < |rules| && Matches(s, rules[r.value].key)
    ensures r.Some? ==> forall j | from <= j < r.value :: !Matches(s, rules[j].key)
    ensures r.None? ==> forall j | from <= j < |rules| :: !Matches(s, rules[j].key)
    decreases |rules| - from
  {
    if from == |rules| then None
    else if Matches(s, rules[from].key) then Some(from)
    else FirstMatchFrom(rules, s, from + 1)
  }

  /** Index of the rule that wins for `s`, if any. */
  function FirstMatch<L>(rules: seq<Rule<L>>, s: string): (r: Option<nat>)
    ensures r.Some? ==> IsFirstMatch(rules, s, r.value)
    ensures r.None? ==> NoRuleMatches(rules, s)
  {
    FirstMatchFrom(rules, s, 0)
  }

  /** Name of the winning rule, or None when nothing matches. */
  function Lookup<L>(rules: seq<Rule<L>>, s: string): (r: Option<L>)
    ensures r.None? <==> NoRuleMatches(rules, s)
    ensures forall i | IsFirstMatch(rules, s, i) :: r == Some(rules[i].name)
  {
    match FirstMatch(rules, s)
    case None => None
    case Some(i) => Some(rules[i].name)
  }

  /** The scan of `getCampus`, `getFacultyTitle` and `getSchoolOnCampus`
      as a counted loop that returns the index of the first rule whose key
      matches. */
  method FirstMatchLoop<L>(rules: seq<Rule<L>>, s: string) returns (r: Option<nat>)
    ensures r == FirstMatch(rules, s)
  {
    var i := 0;
    while i < |rules|
      invariant 0 <= i <= |rules|
      invariant forall j | 0 <= j < i :: !Matches(s, rules[j].key)
    {
      if Matches(s, rules[i].key) {
        FirstMatchIsUnique(rules, s, i, FirstMatch(rules, s));
        return Some(i);
      }
      i := i + 1;
    }
    return None;
  }

  /** At most one rule is the first match. */
  lemma FirstMatchIsUnique<L>(rules: seq<Rule<L>>, s: string, i: int, r: Option<nat>)
    requires IsFirstMatch(rules, s, i) && r == FirstMatch(rules, s)
    ensures r == Some(i)
  {
  }

  /** A rule is dead when an earlier rule matches everything it matches:
      its name can never be the outcome of the scan. */
  lemma ShadowedRuleNeverWins<L>(rules: seq<Rule<L>>, earlier: nat, later: nat, s: string)
    requires earlier < later < |rules|
    requires Lang(rules[later].key) <= Lang(rules[earlier].key)
    ensures !IsFirstMatch(rules, s, later)
    ensures FirstMatch(rules, s) != Some(later)
  {
    if Matches(s, rules[later].key) {
      var w :| w in Lang(rules[later].key) && Contains(s, w);
      assert w in Lang(rules[earlier].key);
    }
  }
}
