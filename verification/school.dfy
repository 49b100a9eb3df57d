/** `getSchoolOnCampus`: the school or college of an affiliation, searched
    only in the table of the campus it is given. */
module Schools {
  import opened Wrappers
  import opened Text
  import opened Patterns
  import opened Rules
  import opened Campuses

  /** One value of `schoolMap`: `{ abbr, name, school }`. */
  datatype SchoolTable = SchoolTable(abbr: string, name: string, school: seq<Rule<string>>)

  const AnnArborSchools: seq<Rule<string>> := [
    Rule(Around("College of Architecture ", AndOrAmp, " Urban Planning"),
         "Taubman College of Architecture and Urban Planning"),
    Rule(Around("School of Art ", AndOrAmp, " Design"), "Stamps School of Art and Design"),
    Rule(Lit("School of Business"), "Ross School Business"),
    Rule(Lit("School of Education"), "Marsal Family School of Education"),
    Rule(Lit("School of Information"), "School of Information"),
    Rule(Lit("School of Kinesiology"), "School of Kinesiology"),
    Rule(Lit("College of Engineering"), "College of Engineering"),
    Rule(Around("College of Literature, Science", Opt(Lit(",")), " and the Arts"),
         "College of Literature, Science and the Arts"),
    Rule(Lit("College of Pharmacy"), "College of Pharmacy"),
    Rule(Lit("Institute for Social Research"), "Institute for Social Research"),
    Rule(Lit("Law School"), "Law School"),
    Rule(Alt(Lit("UMHS"), Alt(Lit("Medical School"),
           Alt(Lit("University of Michigan Hospitals"), Lit("Michigan Medicine")))),
         "Medical School"),
    Rule(Lit("National Center for Institutional Diversity"), "National Center for Institutional Diversity"),
    Rule(Lit("Office of the Vice President for Research"), "Office of the Vice President for Research"),
    Rule(Cat(Lit("Rackham"), Opt(Lit(" School of Graduate Studies"))), "Rackham School of Graduate Studies"),
    Rule(Alt(Lit("SEAS"), Around("School for Environment ", AndOrAmp, " Sustainability")),
         "School for Environment and Sustainability"),
    Rule(Lit("School of Dentistry"), "School of Dentistry"),
    Rule(Lit("School of Education"), "School of Education"),
    Rule(Lit("School of Information"), "School of Information"),
    Rule(Around("School of Music, Theat", Cat(Cat(Alt(Lit("re"), Lit("er")), Lit(" ")), AndOrAmp), " Dance"),
         "School of Music, Theatre and Dance"),
    Rule(Lit("School of Nursing"), "School of Nursing"),
    Rule(Lit("School of Pharmacy"), "School of Pharmacy"),
    Rule(Lit("School of Public Health"), "School of Public Health"),
    Rule(Lit("School of Public Policy"), "School of Public Policy"),
    Rule(Lit("School of Social Work"), "School of Social Work"),
    Rule(Lit("University Library"), "University Library")
  ]

  const DearbornSchools: seq<Rule<string>> := [
    Rule(Around("College of Arts, Sciences ", AndOrAmp, " Letters"), "College of Arts, Sciences and Letters"),
    Rule(Lit("College of Business"), "College of Business"),
    Rule(Around("College of Education, Health", Cat(Cat(Opt(Lit(",")), Lit(" ")), AndOrAmp), " Human Services"),
         "College of Education, Health and Human Services"),
    Rule(Around("College of Engineering ", AndOrAmp, " Computer Science"),
         "College of Engineering and Computer Science")
  ]

  const FlintSchools: seq<Rule<string>> := [
    Rule(Alt(Around("College of Arts ", AndOrAmp, " Sciences"),
             Around("College of Arts", Cat(Cat(Opt(Lit(",")), Lit(" Sciences ")), AndOrAmp), " Education")),
         "College of Arts, Sciences and Education"),
    Rule(Lit("School of Management"), "School of Management"),
    Rule(Lit("College of Health Sciences"), "College of Health Sciences"),
    Rule(Lit("School of Nursing"), "School of Nursing"),
    Rule(Around("College of Innovation ", AndOrAmp, " Technology"), "College of Innovation and Technology")
  ]

  /** Names of the properties every JavaScript object inherits from
      `Object.prototype`; `schoolMap[k]` is defined for these keys too. */
  const ObjectPrototypeKeys: set<string> := {
    "constructor", "hasOwnProperty", "isPrototypeOf", "propertyIsEnumerable",
    "toLocaleString", "toString", "valueOf", "__proto__",
    "__defineGetter__", "__defineSetter__", "__lookupGetter__", "__lookupSetter__"
  }

  /** What `schoolMap[key]` evaluates to. */
  datatype MapValue =
    | Own(table: SchoolTable)  // one of the three campus tables
    | Inherited                // an Object.prototype member, which has no `school`
    | Undefined

  function SchoolMapGet(key: string): (v: MapValue)
    ensures v.Own? <==> key in {"aa", "db", "fl"}
    ensures key == "aa" ==> v == Own(SchoolTable("AA", "Ann Arbor", AnnArborSchools))
    ensures key == "db" ==> v == Own(SchoolTable("DB", "Dearborn", DearbornSchools))
    ensures key == "fl" ==> v == Own(SchoolTable("FL", "Flint", FlintSchools))
    ensures v.Undefined? <==> key !in {"aa", "db", "fl"} && key !in ObjectPrototypeKeys
  {
    if key == "aa" then Own(SchoolTable("AA", "Ann Arbor", AnnArborSchools))
    else if key == "db" then Own(SchoolTable("DB", "Dearborn", DearbornSchools))
    else if key == "fl" then Own(SchoolTable("FL", "Flint", FlintSchools))
    else if key in ObjectPrototypeKeys then Inherited
    else Undefined
  }

  /** The school table of each campus the campus classifier can return. */
  function SchoolsOf(c: CampusEntry): seq<Rule<string>>
  {
    match SchoolMapGet(c.abbr)
    case Own(t) => t.school
    case _ => []
  }

  /** Each of the three campuses selects its own school table. */
  lemma SchoolsOfCampuses()
    ensures SchoolsOf(AnnArbor) == AnnArborSchools
    ensures SchoolsOf(Dearborn) == DearbornSchools
    ensures SchoolsOf(Flint) == FlintSchools
  {
  }

  /** School of an affiliation string on a given campus. Blank or `#N/A`:
      null. A null campus throws (its `abbr` is read), as does an `abbr`
      naming an inherited property (its `school` is undefined). Another
      unknown `abbr`: null. Otherwise the name of the first rule of that
      campus's own table whose key occurs in the trimmed line, and null when
      none does: there is no default school. */
  function GetSchoolOnCampus(campus: Option<CampusEntry>, line: string): (r: Completion<Option<string>>)
    ensures IsMissing(line) ==> r == Normal(None)
    ensures !IsMissing(line) && campus.None? ==> r == TypeError
    ensures !IsMissing(line) && campus.Some? ==>
      match SchoolMapGet(campus.value.abbr)
      case Inherited => r == TypeError
      case Undefined => r == Normal(None)
      case Own(t) =>
        && r.Normal?
        && (r.value.None? <==> NoRuleMatches(t.school, Trim(line)))
        && forall i | IsFirstMatch(t.school, Trim(line), i) :: r.value == Some(t.school[i].name)
  {
    if IsMissing(line) then Normal(None)
    else
      match campus
      case None => TypeError
      case Some(c) =>
        match SchoolMapGet(c.abbr)
        case Undefined => Normal(None)
        case Inherited => TypeError
        case Own(t) => Normal(Lookup(t.school, Trim(line)))
  }

  /** Only the given campus's table is searched: "School of Nursing" is a
      Flint school but not a Dearborn one (nor is any Dearborn key that
      short). */
  lemma NursingIsNotADearbornSchool()
    ensures GetSchoolOnCampus(Some(Dearborn), "School of Nursing") == Normal(None)
    ensures GetSchoolOnCampus(Some(Flint), "School of Nursing") == Normal(Some("School of Nursing"))
  {
    var s := "School of Nursing";
    assert IsTrimOf(s, s, 0);
    TrimUnique(s, s, 0);
    NoDearbornKeyIn(s);
    NursingFirstOnFlint();
  }

  /** No Dearborn key has a word as short as "School of Nursing". */
  lemma NoDearbornKeyIn(s: string)
    requires |s| <= 17
    ensures NoRuleMatches(DearbornSchools, s)
  {
    forall j | 0 <= j < |DearbornSchools|
      ensures !Matches(s, DearbornSchools[j].key)
    {
      ShortNeverMatches(s, DearbornSchools[j].key);
    }
  }

  /** On Flint, "School of Nursing" is first matched by the Nursing rule. */
  lemma NursingFirstOnFlint()
    ensures IsFirstMatch(FlintSchools, "School of Nursing", 3)
  {
    var s := "School of Nursing";
    ShortNeverMatches(s, FlintSchools[0].key);
    ShortNeverMatches(s, FlintSchools[1].key);
    ShortNeverMatches(s, FlintSchools[2].key);
    MatchesOwnWord(FlintSchools[3].key, s);
  }

  /** The second "School of Education" and "School of Information" entries
      of the Ann Arbor table repeat earlier keys and can never win. */
  lemma AnnArborDuplicatesUnreachable(s: string)
    ensures FirstMatch(AnnArborSchools, s) != Some(17)
    ensures FirstMatch(AnnArborSchools, s) != Some(18)
  {
    ShadowedRuleNeverWins(AnnArborSchools, 3, 17, s);
    ShadowedRuleNeverWins(AnnArborSchools, 4, 18, s);
  }

  /** Only entry 17 of the Ann Arbor table carries the label "School of
      Education". */
  lemma EducationLabelOnlyAt17(i: int)
    requires 0 <= i < |AnnArborSchools| && AnnArborSchools[i].name == "School of Education"
    ensures i == 17
  {
  }

  /** Hence the label "School of Education" is never produced on the Ann
      Arbor campus. */
  lemma AnnArborNeverSchoolOfEducation(c: CampusEntry, line: string)
    requires c.abbr == "aa"
    ensures GetSchoolOnCampus(Some(c), line) != Normal(Some("School of Education"))
  {
    var s := Trim(line);
    AnnArborDuplicatesUnreachable(s);
    var r := FirstMatch(AnnArborSchools, s);
    if !IsMissing(line) && r.Some? {
      if AnnArborSchools[r.value].name == "School of Education" {
        EducationLabelOnlyAt17(r.value);
      }
    }
  }

  /** On the Ann Arbor campus a line naming the School of Education gets the
      first entry's label, unless one of the three rules before it matches. */
  lemma EducationIsMarsal(line: string)
    requires Contains(line, "School of Education")
    requires forall j | 0 <= j < 3 :: !Matches(Trim(line), AnnArborSchools[j].key)
    ensures GetSchoolOnCampus(Some(AnnArbor), line) == Normal(Some("Marsal Family School of Education"))
  {
    ContainsWordNotMissing(line, "School of Education");
    ContainsTrim(line, "School of Education");
    assert Matches(Trim(line), AnnArborSchools[3].key);
    assert IsFirstMatch(AnnArborSchools, Trim(line), 3);
  }

  /** Conversely, a line matched by one of the three rules before it never
      gets the Marsal label on the Ann Arbor campus. */
  lemma EarlierRuleBlocksMarsal(line: string, j: nat)
    requires j < 3 && Matches(Trim(line), AnnArborSchools[j].key)
    ensures GetSchoolOnCampus(Some(AnnArbor), line) != Normal(Some("Marsal Family School of Education"))
  {
    var r := FirstMatch(AnnArborSchools, Trim(line));
    assert r.Some? && r.value <= j;
    assert AnnArborSchools[r.value].name != "Marsal Family School of Education" by {
      assert r.value == 0 || r.value == 1 || r.value == 2;
    }
    assert SchoolMapGet(AnnArbor.abbr) == Own(SchoolTable("AA", "Ann Arbor", AnnArborSchools));
  }

  /** The optional "School of Graduate Studies" tail of the Rackham key is
      redundant: the rule matches exactly the lines containing "Rackham". */
  lemma RackhamKeyIsJustRackham(s: string)
    ensures Matches(s, AnnArborSchools[14].key) <==> Contains(s, "Rackham")
  {
    OptionalTailRedundant(s, Lit("Rackham"), Lit(" School of Graduate Studies"));
  }
}
