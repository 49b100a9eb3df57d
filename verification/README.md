# Affiliation classifier, modelled in Dafny

This project models the rule-based core of `affiliation_parser`. The parser
reads the free-text affiliation field of an LDAP directory entry and turns it
into three labels:

- the University of Michigan campus;
- the school or college on that campus;
- whether the person is faculty or staff, and the faculty title if any.

Each classifier trims the line and turns away a blank line or the
spreadsheet marker `#N/A`. It then scans an ordered table of regular
expression keys, and the first key that occurs anywhere in the line wins.
Matching is unanchored and case-sensitive. `getCampus` falls back to Ann
Arbor when no key occurs. `getSchoolOnCampus` searches only the table of the
campus it is given and has no fallback. `getFacultyTitle` treats a line
with no title key as staff.

Modules, one per concept:

- `Wrappers`: `Option` stands for JavaScript `null`. `Completion` is a call
  that returns normally or throws a `TypeError`.
- `Text`: ECMAScript `trim`, characterised by `IsTrimOf`. Unanchored
  occurrence (`Contains`). The shared blank / `#N/A` guard (`IsMissing`).
- `Patterns`: the keys as a small regular-expression AST
  (`Lit | Cat | Alt | Opt`). `Lang(p)` is the finite set of words of `p`,
  and `Matches(s, p)` holds when some word of `Lang(p)` occurs in `s`.
- `Rules`: ordered tables of `Rule(key, name)`, resolved first-match-wins.
  Characterised by `IsFirstMatch` and `NoRuleMatches`.
- `Campuses`, `Titles`, `Schools`: the three classifiers with their tables,
  copied in table order with the program's own labels.
- `Pipeline`: the record `processLine` builds.

Behaviour preserved exactly as the code has it:

- The emeritus key is `Professsor emerit(us|a)`, with three s's and a
  lower-case `emerit`. So "Professor Emeritus" is classified as plain
  Professor (`Titles.ProfessorEmeritusIsProfessor`).
- The Ann Arbor business school label is "Ross School Business".
- The Ann Arbor table lists `School of Education` and `School of Information`
  twice each. The later copies can never win.
- `getSchoolOnCampus` reads `campus.abbr` right after the blank / `#N/A`
  guard, so it throws on a `null` campus for any line that is neither blank
  nor `#N/A`. It also throws when `abbr` names a property every object inherits (`toString`,
  `constructor`, ...): `schoolMap[abbr]` is then defined but has no
  `school`. Any other unknown `abbr` gives `null`. Within `processLine`,
  neither case can arise (`Pipeline.ProcessLine`).
- The record `processLine` builds has `campus`, `school` and `is_faculty`.
  The title is computed but not stored, so `Pipeline.Record` has no title.
- A line containing "School of Education" on the Ann Arbor campus gets
  "Marsal Family School of Education" only when none of the three earlier
  Ann Arbor rules also matches (`Schools.EducationIsMarsal` and
  `Schools.EarlierRuleBlocksMarsal`).

## Model

| member | source | states |
|---|---|---|
| Text.Trim | src/affiliation_parser.js:27 | the result is `s` minus the whitespace at both ends: an infix of `s`, with only whitespace outside it, and no whitespace at either of its own ends |
| Text.TrimUnique | src/affiliation_parser.js:27 | any split of `s` into whitespace, a clean middle and whitespace has `Trim(s)` as its middle, so trimming has exactly one outcome |
| Text.TrimIdempotent | src/affiliation_parser.js:54 | trimming an already trimmed string changes nothing |
| Text.ContainsTrim | src/affiliation_parser.js:39 | for a nonempty key with no whitespace at its ends, it occurs in the trimmed line exactly when it occurs in the raw line |
| Text.ContainsWordNotMissing | src/affiliation_parser.js:28 | a line containing a clean word longer than `#N/A` never passes the blank / `#N/A` guard |
| Patterns.MinLenBound | src/affiliation_parser.js:93-140 | no word of a key is shorter than the key's minimum length |
| Patterns.ShortNeverMatches | src/affiliation_parser.js:151 | a line shorter than every word of a key never matches it |
| Patterns.MatchesCatFront | src/affiliation_parser.js:60 | a line matching a concatenation also matches its front part |
| Patterns.OptionalTailRedundant | src/affiliation_parser.js:107 | under unanchored search, `p(q)?` matches exactly the lines `p` matches |
| Rules.FirstMatchFrom | src/affiliation_parser.js:150-154 | the index returned has a matching key and none between the start and it do; None means no key from the start onward matches |
| Rules.FirstMatch | src/affiliation_parser.js:38-42 | the result is the first rule whose key matches, or None exactly when no rule matches |
| Rules.Lookup | src/affiliation_parser.js:67-71 | the name returned is the first matching rule's name, and None exactly when no rule matches |
| Rules.FirstMatchLoop | src/affiliation_parser.js:150-154 | the counted loop of `getCampus`, `getFacultyTitle` and `getSchoolOnCampus` returns the same index as the first-match definition |
| Rules.ShadowedRuleNeverWins | src/affiliation_parser.js:150-153 | a rule whose words are all words of an earlier rule is never the first match |
| Campuses.GetCampus | src/affiliation_parser.js:25-45 | None exactly for blank or `#N/A` lines; otherwise one of the three campuses, namely the first whose key occurs in the trimmed line, and Ann Arbor when none occurs |
| Campuses.DearbornByKey | src/affiliation_parser.js:33-41 | a raw line containing the Dearborn key and not the Ann Arbor key is on the Dearborn campus |
| Campuses.FlintKeyAlone | src/affiliation_parser.js:35-40 | the Flint key on its own is classified as Flint |
| Campuses.UnrecognisedDefaultsToAnnArbor | src/affiliation_parser.js:43-44 | a line that is neither blank nor `#N/A` and names no campus, such as "Lecturer", defaults to Ann Arbor |
| Titles.GetFacultyTitle | src/affiliation_parser.js:52-74 | unknown `{null, null}` exactly for blank or `#N/A` lines; otherwise faculty exactly when a title is given, and the title is one of the five table names: that of the first matching rule, or `{false, null}` when none matches |
| Titles.AssociateBeatsProfessor | src/affiliation_parser.js:60-70 | a line containing "Associate Professor", without "Assistant Professor" and without an emeritus-key match, is titled Associate Professor and not Professor |
| Titles.AssistantBeatsProfessor | src/affiliation_parser.js:60-70 | a line containing "Assistant Professor" and no emeritus-key match is titled Assistant Professor |
| Titles.RankedNeverPlainProfessor | src/affiliation_parser.js:60-70 | every line containing "Associate Professor" or "Assistant Professor", whatever else it contains, is never titled plain Professor |
| Titles.ProfessorKeyCoversRankedTitles | src/affiliation_parser.js:61-63 | every line matched by the assistant or associate key is also matched by the bare Professor key, so rule order decides these titles |
| Titles.EmeritusNeedsMisspelling | src/affiliation_parser.js:60 | the emeritus title is given only to lines whose trimmed text contains "Professsor emerit" |
| Titles.ProfessorEmeritusIsProfessor | src/affiliation_parser.js:60-69 | "Professor Emeritus" misses the emeritus and ranked rules and is titled plain Professor |
| Schools.SchoolMapGet | src/affiliation_parser.js:88-145 | `schoolMap[key]` is an own table exactly for `aa`, `db` and `fl`: `aa` gives the Ann Arbor table, `db` the Dearborn table and `fl` the Flint table; it is undefined exactly for keys that are neither those nor inherited object properties |
| Schools.SchoolsOfCampuses | src/affiliation_parser.js:33-35 | the Ann Arbor, Dearborn and Flint entries `getCampus` returns select, through their `abbr`, exactly the Ann Arbor, Dearborn and Flint school tables |
| Schools.GetSchoolOnCampus | src/affiliation_parser.js:81-157 | null for blank or `#N/A` lines; throws for a null campus or an inherited-property `abbr`; null for another unknown `abbr`; otherwise the first matching name of that campus's own table, and null exactly when no rule of it matches |
| Schools.NursingIsNotADearbornSchool | src/affiliation_parser.js:124-139 | "School of Nursing" has no school on the Dearborn campus but is the Flint School of Nursing |
| Schools.AnnArborDuplicatesUnreachable | src/affiliation_parser.js:96-97 | the second School of Education and School of Information entries, at lines 110-111, are never the first match |
| Schools.AnnArborNeverSchoolOfEducation | src/affiliation_parser.js:110 | on the Ann Arbor campus the label "School of Education" is never produced |
| Schools.EducationIsMarsal | src/affiliation_parser.js:93-96 | on Ann Arbor, a line containing "School of Education" where none of the first three rules matches gets "Marsal Family School of Education" |
| Schools.EarlierRuleBlocksMarsal | src/affiliation_parser.js:93-96 | on Ann Arbor, a line matched by any of the first three rules never gets "Marsal Family School of Education" |
| Schools.RackhamKeyIsJustRackham | src/affiliation_parser.js:107 | the Rackham rule matches exactly the lines containing "Rackham" |
| Pipeline.SchoolOnReturnedCampus | src/affiliation_parser.js:184-185 | for the campus `getCampus` returns, `getSchoolOnCampus` searches that campus's own table, and returns null when the campus is null |
| Pipeline.ProcessLine | src/affiliation_parser.js:181-187 | never throws; the campus is null exactly for blank or `#N/A` lines, and then school and faculty status are null too; otherwise the campus is the first campus whose key occurs in the trimmed line, or Ann Arbor when none does, the school is the first match of that campus's own table or null, and faculty status is true exactly when some title rule matches |
| Pipeline.MissingLines | src/affiliation_parser.js:28-29 | an empty line, an all-whitespace line and `#N/A` give a record that is null in every field |

## Left out

- Reading the file name from the command line and exiting on a wrong
  argument count (lines 15-18): process I/O.
- Streaming the file with `fs` and `readline` and wiring the `line` event
  (lines 12-13, 171-174, 203): I/O and event-loop plumbing. Each line is a
  parameter of `Pipeline.ProcessLine`.
- Printing the record with `console.log` (lines 189-193): presentation only.
- The unused `unit` array and `count` variable (lines 164-169, 202): dead code.
- The general JavaScript RegExp engine. Only the finite-language subset used
  by the keys is modelled: literals, `(a|b)` groups, top-level `|`, and `?`
  on one character or a group. `match` returning a non-null array is modelled
  as a yes/no occurrence test, since only its truth is used.
- `trim` strips a fixed set of code points: the ECMAScript WhiteSpace and
  LineTerminator characters listed in `Text.IsWhitespace`. Later changes to
  the Unicode `Zs` category are not followed.
- Concrete end-to-end examples are given only where a length argument shows
  that the other keys cannot occur. For example, a full campus-and-school
  line is not worked through.
