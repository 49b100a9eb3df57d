/** `getFacultyTitle`: faculty or staff, and the faculty title if any. */
module Titles {
  import opened Wrappers
  import opened Text
  import opened Patterns
  import opened Rules

  /** `{ is_faculty, title }`; both None means "unknown". */
  datatype FacultyInfo = FacultyInfo(isFaculty: Option<bool>, title: Option<string>)

  /** The emeritus key as the title table spells it: `Professsor emerit(us|a)`, with
      three s's and a lower-case `emerit`. */
  const EmeritusKey: Pattern := Cat(Lit("Professsor emerit"), Alt(Lit("us"), Lit("a")))

  /** The title table of `getFacultyTitle`, in table order. */
  const TitleTable: seq<Rule<string>> := [
    Rule(EmeritusKey, "Professor Emeritus/a"),
    Rule(Lit("Assistant Professor"), "Assistant Professor"),
    Rule(Lit("Associate Professor"), "Associate Professor"),
    Rule(Lit("Professor"), "Professor"),
    Rule(Lit("Lecturer"), "Lecturer")
  ]

  /** Titles a line can be given. */
  const TitleNames: set<string> :=
    {"Professor Emeritus/a", "Assistant Professor", "Associate Professor", "Professor", "Lecturer"}

  /** Faculty status of an affiliation string. Blank or `#N/A`: unknown.
      Otherwise faculty exactly when some title key occurs in the trimmed
      line, with the title of the first such rule; staff otherwise. */
  function GetFacultyTitle(line: string): (r: FacultyInfo)
    ensures IsMissing(line) ==> r == FacultyInfo(None, None)
    ensures !IsMissing(line) ==> r.isFaculty.Some? && (r.isFaculty.value <==> r.title.Some?)
    ensures r.title.Some? ==> r.title.value in TitleNames
    ensures !IsMissing(line) ==>
      forall i | IsFirstMatch(TitleTable, Trim(line), i) :: r == FacultyInfo(Some(true), Some(TitleTable[i].name))
    ensures !IsMissing(line) && NoRuleMatches(TitleTable, Trim(line)) ==> r == FacultyInfo(Some(false), None)
  {
    if IsMissing(line) then FacultyInfo(None, None)
    else
      match Lookup(TitleTable, Trim(line))
      case Some(t) => FacultyInfo(Some(true), Some(t))
      case None => FacultyInfo(Some(false), None)
  }

  /** A line containing "Associate Professor", but neither "Assistant
      Professor" nor a match of the emeritus key, is titled Associate
      Professor and never plain Professor. */
  lemma AssociateBeatsProfessor(line: string)
    requires Contains(line, "Associate Professor")
    requires !Contains(line, "Assistant Professor")
    requires !Matches(Trim(line), EmeritusKey)
    ensures GetFacultyTitle(line) == FacultyInfo(Some(true), Some("Associate Professor"))
  {
    ContainsWordNotMissing(line, "Associate Professor");
    ContainsTrim(line, "Associate Professor");
    ContainsTrim(line, "Assistant Professor");
    assert IsFirstMatch(TitleTable, Trim(line), 2);
  }

  /** A line containing "Assistant Professor" and no match of the emeritus
      key is titled Assistant Professor, whatever else it contains. */
  lemma AssistantBeatsProfessor(line: string)
    requires Contains(line, "Assistant Professor")
    requires !Matches(Trim(line), EmeritusKey)
    ensures GetFacultyTitle(line) == FacultyInfo(Some(true), Some("Assistant Professor"))
  {
    ContainsWordNotMissing(line, "Assistant Professor");
    ContainsTrim(line, "Assistant Professor");
    assert IsFirstMatch(TitleTable, Trim(line), 1);
  }

  /** A line containing either ranked title is never titled plain
      Professor, whatever else it contains: both ranked rules come before
      the bare Professor rule, and no earlier rule carries that name. */
  lemma RankedNeverPlainProfessor(line: string)
    requires Contains(line, "Associate Professor") || Contains(line, "Assistant Professor")
    ensures GetFacultyTitle(line).title != Some("Professor")
  {
    if Contains(line, "Associate Professor") {
      ContainsWordNotMissing(line, "Associate Professor");
      ContainsTrim(line, "Associate Professor");
      assert Matches(Trim(line), TitleTable[2].key);
    } else {
      ContainsWordNotMissing(line, "Assistant Professor");
      ContainsTrim(line, "Assistant Professor");
      assert Matches(Trim(line), TitleTable[1].key);
    }
    var r := FirstMatch(TitleTable, Trim(line));
    assert r.Some? && r.value <= 2;
  }

  /** Rule order is what keeps the ranked titles apart: the bare
      "Professor" key matches every line the assistant and associate keys
      match, so listing it first would swallow both. */
  lemma ProfessorKeyCoversRankedTitles(s: string)
    ensures Matches(s, TitleTable[1].key) ==> Matches(s, TitleTable[3].key)
    ensures Matches(s, TitleTable[2].key) ==> Matches(s, TitleTable[3].key)
  {
    assert OccursAt("Assistant Professor", "Professor", 10);
    assert OccursAt("Associate Professor", "Professor", 10);
    if Contains(s, "Assistant Professor") {
      ContainsTransitive(s, "Assistant Professor", "Professor");
    }
    if Contains(s, "Associate Professor") {
      ContainsTransitive(s, "Associate Professor", "Professor");
    }
  }

  /** The emeritus rule fires only on the misspelling: a line whose trimmed
      text lacks "Professsor emerit" never gets the emeritus title. */
  lemma EmeritusNeedsMisspelling(line: string)
    requires !Contains(Trim(line), "Professsor emerit")
    ensures GetFacultyTitle(line).title != Some("Professor Emeritus/a")
  {
    if Matches(Trim(line), EmeritusKey) {
      MatchesCatFront(Trim(line), Lit("Professsor emerit"), Alt(Lit("us"), Lit("a")));
    }
  }

  /** The ordinary spelling "Professor Emeritus" falls through the emeritus
      rule (and the two ranked rules) to plain Professor. */
  lemma ProfessorEmeritusIsProfessor()
    ensures GetFacultyTitle("Professor Emeritus") == FacultyInfo(Some(true), Some("Professor"))
  {
    var s := "Professor Emeritus";
    assert IsTrimOf(s, s, 0);
    TrimUnique(s, s, 0);
    var typo := "Professsor emerit";
    forall k: nat | k <= |s|
      ensures !OccursAt(s, typo, k)
    {
      if k + |typo| <= |s| {
        assert k == 0 || k == 1;
        assert s[k..k + |typo|][7] != typo[7];
      }
    }
    EmeritusNeedsMisspelling(s);
    ShortNeverMatches(s, TitleTable[1].key);
    ShortNeverMatches(s, TitleTable[2].key);
    assert OccursAt(s, "Professor", 0);
    assert Contains(s, "Professor");
    assert IsFirstMatch(TitleTable, s, 3);
  }
}
