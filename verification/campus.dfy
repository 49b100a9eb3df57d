/** `getCampus`: which University of Michigan campus an affiliation names. */
module Campuses {
  import opened Wrappers
  import opened Text
  import opened Patterns
  import opened Rules

  /** A campus entry `{ abbr, key, name }` as `getCampus` returns it: `abbr`
      selects the school table, `key` is the entry's search pattern, `name`
      is what gets displayed. */
  datatype CampusEntry = CampusEntry(abbr: string, key: Pattern, name: string)

  const AnnArbor := CampusEntry("aa", Lit("The University of Michigan-Ann Arbor"), "Ann Arbor")
  const Dearborn := CampusEntry("db", Lit("The University of Michigan-Dearborn"), "Dearborn")
  const Flint := CampusEntry("fl", Lit("The University of Michigan-Flint"), "Flint")

  /** The campus table of `getCampus`, in table order: each entry is searched
      for by its own `key`, a plain literal. */
  const CampusTable: seq<Rule<CampusEntry>> := [
    Rule(AnnArbor.key, AnnArbor),
    Rule(Dearborn.key, Dearborn),
    Rule(Flint.key, Flint)
  ]

  /** Campus named by an affiliation string. A blank or `#N/A` line is
      unknown (None); otherwise the first campus whose key occurs in the
      trimmed line, and Ann Arbor when none does. */
  function GetCampus(line: string): (r: Option<CampusEntry>)
    ensures r.None? <==> IsMissing(line)
    ensures r.Some? ==> r.value in {AnnArbor, Dearborn, Flint}
    ensures !IsMissing(line) ==>
      forall i | IsFirstMatch(CampusTable, Trim(line), i) :: r == Some(CampusTable[i].name)
    ensures !IsMissing(line) && NoRuleMatches(CampusTable, Trim(line)) ==> r == Some(AnnArbor)
  {
    if IsMissing(line) then None
    else
      match Lookup(CampusTable, Trim(line))
      case Some(c) => Some(c)
      case None => Some(CampusTable[0].name)
  }

  /** Every campus key is a clean literal, so the campus of a line depends
      only on which keys occur in the raw line: a line naming Dearborn and
      not Ann Arbor is on the Dearborn campus, whatever whitespace surrounds
      it. */
  lemma DearbornByKey(line: string)
    requires Contains(line, "The University of Michigan-Dearborn")
    requires !Contains(line, "The University of Michigan-Ann Arbor")
    ensures GetCampus(line) == Some(Dearborn)
  {
    ContainsWordNotMissing(line, "The University of Michigan-Dearborn");
    ContainsTrim(line, "The University of Michigan-Dearborn");
    ContainsTrim(line, "The University of Michigan-Ann Arbor");
    assert IsFirstMatch(CampusTable, Trim(line), 1);
  }

  /** Flint is recognised on its own: its key is shorter than the Ann Arbor
      and Dearborn keys, so neither can occur in it. */
  lemma FlintKeyAlone()
    ensures GetCampus("The University of Michigan-Flint") == Some(Flint)
  {
    var s := "The University of Michigan-Flint";
    assert IsTrimOf(s, s, 0);
    TrimUnique(s, s, 0);
    ShortNeverMatches(s, CampusTable[0].key);
    ShortNeverMatches(s, CampusTable[1].key);
    MatchesOwnWord(CampusTable[2].key, s);
    assert IsFirstMatch(CampusTable, s, 2);
  }

  /** The default: a line that is neither blank nor `#N/A` and names no
      campus goes to Ann Arbor. */
  lemma UnrecognisedDefaultsToAnnArbor()
    ensures GetCampus("Lecturer") == Some(AnnArbor)
  {
    var s := "Lecturer";
    assert IsTrimOf(s, s, 0);
    TrimUnique(s, s, 0);
    ShortNeverMatches(s, CampusTable[0].key);
    ShortNeverMatches(s, CampusTable[1].key);
    ShortNeverMatches(s, CampusTable[2].key);
  }
}
