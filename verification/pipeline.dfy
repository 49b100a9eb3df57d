/** `processLine`: the three classifiers applied to one directory line. */
module Pipeline {
  import opened Wrappers
  import opened Text
  import opened Rules
  import opened Campuses
  import opened Titles
  import opened Schools

  /** The `data` record `processLine` assembles before printing it. The
      title computed by `getFacultyTitle` is not stored in it. */
  datatype Record = Record(campus: Option<CampusEntry>, school: Option<string>, isFaculty: Option<bool>)

  /** Every campus `getCampus` can return has one of the three own school
      tables, so `getSchoolOnCampus` on it neither throws nor gives up: it
      searches that campus's table. */
  lemma SchoolOnReturnedCampus(line: string)
    ensures GetCampus(line).Some? ==>
      && SchoolMapGet(GetCampus(line).value.abbr).Own?
      && GetSchoolOnCampus(GetCampus(line), line)
         == Normal(Lookup(SchoolsOf(GetCampus(line).value), Trim(line)))
    ensures GetCampus(line).None? ==> GetSchoolOnCampus(GetCampus(line), line) == Normal(None)
  {
  }

  /** Classify one line: campus, then the school on that campus, then the
      faculty status. It never throws: the campus is null only for a blank
      or `#N/A` line, which `getSchoolOnCampus` turns away before it reads
      `campus.abbr`. */
  function ProcessLine(line: string): (r: Completion<Record>)
    ensures r.Normal?
    ensures r.value.campus.None? <==> IsMissing(line)
    ensures !IsMissing(line) ==>
      forall i | IsFirstMatch(CampusTable, Trim(line), i) :: r.value.campus == Some(CampusTable[i].name)
    ensures !IsMissing(line) && NoRuleMatches(CampusTable, Trim(line)) ==> r.value.campus == Some(AnnArbor)
    ensures r.value.campus.None? ==> r.value.school.None? && r.value.isFaculty.None?
    ensures r.value.campus.Some? ==>
      var rules := SchoolsOf(r.value.campus.value);
      && (r.value.school.None? <==> NoRuleMatches(rules, Trim(line)))
      && forall i | IsFirstMatch(rules, Trim(line), i) :: r.value.school == Some(rules[i].name)
    ensures r.value.campus.Some? ==>
      r.value.isFaculty == Some(!NoRuleMatches(TitleTable, Trim(line)))
  {
    var campus := GetCampus(line);
    SchoolOnReturnedCampus(line);
    match GetSchoolOnCampus(campus, line)
    case TypeError => TypeError
    case Normal(school) => Normal(Record(campus, school, GetFacultyTitle(line).isFaculty))
  }

  /** Blank, all-whitespace and `#N/A` lines classify as unknown in every
      field. */
  lemma MissingLines()
    ensures ProcessLine("") == Normal(Record(None, None, None))
    ensures ProcessLine(" \t ") == Normal(Record(None, None, None))
    ensures ProcessLine("#N/A") == Normal(Record(None, None, None))
  {
    assert IsTrimOf("", "", 0);
    TrimUnique("", "", 0);
    assert IsTrimOf(" \t ", "", 3);
    TrimUnique(" \t ", "", 3);
    assert IsTrimOf("#N/A", "#N/A", 0);
    TrimUnique("#N/A", "#N/A", 0);
  }
}
