# Form template lookup, modelled in Dafny

The system is a small command-line tool. It answers one command:
`app.py get_tpl --name=value ...`. The tool looks at each value and
classifies it as a date, a phone number, an email address or plain text.
It then searches a store of form templates. A template is a record with a
`name` and, under each other key, the type that field must have. The tool
prints the name of the template that the query fills in best. When no
template matches, it prints a brace-delimited list of the query's fields and
their detected types.

The model has these parts:

- `strings.dfy` (module `Strings`): string helpers. `StartsWith`,
  `EndsWith`, `Contains` and `Join` are `str` operations the program calls.
  The program also calls `split('=', 1)`, which the model writes as `Find`
  (the first `=`) and two slices. `RFind` and `Count` belong to the model:
  the last `.` at which the email pattern settles, and the counts of `@` in
  an email and of line feeds in the report that the lemmas state.
- `validators.dfy` (module `Validators`): the four validators and the type
  detector. These are pure functions. Each regular expression is written out
  as a predicate on characters, including Python's behaviour that `$` also
  matches just before one final line feed. `datetime.strptime` is written out
  as the Gregorian calendar check.
- `database.dfy` (module `Database`): the class `FormDatabase`. It holds the
  stored templates as a sequence, in insertion order. `FindMatchingForm`
  keeps the source's loops: a scan over the stored templates, and an inner
  loop that checks each required field. The method is proved equal to
  `MatchOf`, a left fold of one scan step. `MatchOf` is in turn proved to
  return the first eligible template with the largest field count, or
  nothing when no template is eligible.
- `app.dfy` (module `App`): argument parsing and `main`.
  - `ParseArguments` is the source's loop. It is proved equal to `Parsed`,
    a fold with Python's dictionary insertion semantics. `Parsed` is proved
    to keep each name once, in first-appearance order, with its last value.
  - `RenderFieldTypes` builds the "not found" report.
  - `Run` takes `main`'s branches and returns an `Outcome`. `Printed` gives
    the text each outcome writes to standard output.
- `scenarios.dfy` (module `Scenarios`): worked examples. Single values go
  through the detector. The six templates of the seeding script are then
  searched with the four command lines of the example script, and each one
  is proved to give its expected output.

## Model

| member | source | states |
|---|---|---|
| Validators.MatchesMask | validators.py:35-36 | defines `re.match` of a fixed-shape `^...$` pattern: the value fits the mask character by character, or fits it once one final line feed is dropped |
| Validators.MatchesEmailPattern | validators.py:21-22 | defines `re.match` of the email pattern: the value, or the value without one final line feed, is in the pattern's language |
| Validators.ValidatePhone | validators.py:25-36 | accepted exactly when the value is `+7`, a space, then digit groups of 3, 3, 2 and 2 separated by spaces, with at most one trailing line feed |
| Validators.PhoneMaskIsLayout | validators.py:35 | the character mask used for matching is exactly the phone layout |
| Validators.PhoneFromGroups | validators.py:35 | any four digit groups of lengths 3, 3, 2, 2 make an accepted phone |
| Validators.IsCalendarDate | validators.py:53 | defines the dates `datetime` accepts: year 1 to 9999, month 1 to 12, day 1 to the month's length |
| Validators.Strptime | validators.py:52-56 | defines `strptime` on a string that passed the shape check: the date its fields name when the string has exactly the format's shape and the date exists, and an error (`None`) otherwise, including for a trailing line feed |
| Validators.DaysInMonth | validators.py:53 | a month has 28 to 31 days; February has 29 exactly in leap years; the 30-day months are April, June, September and November |
| Validators.ValidateDate | validators.py:39-67 | accepted exactly when the value is exactly ten characters of the `DD.MM.YYYY` or the `YYYY-MM-DD` shape and names a real calendar date; a trailing line feed passes the shape check but `strptime` rejects it |
| Validators.MasksDisjoint | validators.py:50-65 | no string fits both date shapes, so the order of the two attempts does not matter |
| Validators.Pad | validators.py:50-65 | the last `width` decimal digits of a number, zero-padded: a digit string of exactly that width. The program never pads a number; `Pad` is the inverse of reading a date field with `int()` and exists for the round trip between dates and date strings |
| Validators.DigitsValuePad | validators.py:53 | reading back a zero-padded number gives the number |
| Validators.PadDigitsValue | validators.py:53 | a digit string is the zero-padded form of its value |
| Validators.FormatFieldsOf | validators.py:53-62 | a date written in either format fits that format's shape and reads back as the same day, month and year |
| Validators.DigitsValueBound | validators.py:53 | a digit string's value is below ten to the power of its length |
| Validators.DayFirstIsFormat | validators.py:50-56 | a string of the `DD.MM.YYYY` shape is its own day, month and year written in that format |
| Validators.YearFirstIsFormat | validators.py:59-65 | a string of the `YYYY-MM-DD` shape is its own year, month and day written in that format |
| Validators.ValidateDateOfFormat | validators.py:39-67 | a date written in either format is accepted exactly when it is a real calendar date |
| Validators.ValidateDateIsFormat | validators.py:39-67 | every accepted date string is some date written in one of the two formats |
| Validators.EmailRegexMatches | validators.py:21-22 | the scanner that splits at the first `@` and the last `.` accepts exactly the email pattern's language |
| Validators.EmailSplitDetermined | validators.py:21 | any split that fits the pattern forces the local part, domain and top-level domain to meet the pattern's character classes |
| Validators.SplitAtIsFirst | validators.py:21 | in a string of the pattern's language the `@` of any fitting split is the first `@` |
| Validators.SplitDotIsLast | validators.py:21 | in a string of the pattern's language the `.` of any fitting split is the last `.` |
| Validators.EmailOfParts | validators.py:21 | a non-empty local part, a non-empty domain and a top-level domain of two or more letters, joined by `@` and `.`, are in the pattern's language |
| Validators.ValidateEmail | validators.py:8-22 | accepted exactly when the value contains no `..`, neither starts nor ends with `.`, and matches the pattern, with at most one trailing line feed |
| Validators.EmailHasOneAt | validators.py:21 | a string in the pattern's language has exactly one `@` |
| Validators.ValidateEmailHasOneAt | validators.py:8-22 | an accepted email has exactly one `@` |
| Validators.DetectFieldType | validators.py:70-87 | the result is one of `date`, `phone`, `email`, `text` |
| Validators.DateHasNoAt | validators.py:39-67 | an accepted date is ten characters long with no `@` |
| Validators.PhoneHasNoAt | validators.py:25-36 | an accepted phone is 16 or 17 characters long with no `@` |
| Validators.NoAtNotEmail | validators.py:8-22 | a value without `@` is never an email |
| Validators.ValidatorsExclusive | validators.py:70-87 | no value passes two of the three validators, so the detector's order decides nothing |
| Validators.DetectFieldTypeExact | validators.py:70-87 | each tag is returned exactly when its validator accepts; `text` exactly when none does |
| Database.Named | database.py:58-60 | defines the name check: the template has a non-empty `name` |
| Database.TemplateFields | database.py:63 | a template's fields are all its keys except `name`, with their values |
| Database.FieldTypes | database.py:48 | defines the query's detected types: each name with the tag of its value |
| Database.Matches | database.py:62-75 | defines the inner loop's verdict: every required field is in the query with exactly the required type |
| Database.Step | database.py:57-82 | defines one iteration of the scan: an unnamed template is skipped; a matching one with more fields than the kept count replaces the kept name and count |
| Database.Scan | database.py:53-82 | defines the scan as a left fold of `Step` from no name and count 0 |
| Database.MatchOf | database.py:53-84 | defines the lookup's answer as the name the scan keeps; `MatchOfIsBest` states what it is |
| Database.StepTakes | database.py:77-82 | a matching template with more fields than the kept count becomes the answer for the templates seen so far |
| Database.StepKeeps | database.py:77-82 | a template that does not beat the kept count leaves the answer unchanged |
| Database.StepSummarizes | database.py:57-82 | one iteration of the scan keeps the meaning of `best_match` and `best_match_field_count` |
| Database.ScanInvariant | database.py:53-84 | after the scan, no name is kept exactly when nothing is eligible; otherwise the kept name is the best index's and the count is its field count |
| Database.BestIsUnique | database.py:77-82 | at most one index is the first template with the largest field count |
| Database.MatchOfIsBest | database.py:35-84 | the lookup gives nothing exactly when no named template with at least one field matches; otherwise it gives the name of the first eligible template with the largest field count |
| Database.MatchOfIsStoredName | database.py:57-82 | an answer is the non-empty name of a stored, named template whose every field the query supplies with the same type |
| Database.ExtraFieldsAreInert | database.py:63-75 | query fields a template does not require never change whether it matches |
| Database.FormDatabase.constructor | database.py:11-18 | the store opens holding the templates already stored |
| Database.FormDatabase.AddForm | database.py:26-33 | the template is appended and nothing else changes |
| Database.FormDatabase.GetAllForms | database.py:86-93 | returns every stored template, in stored order |
| Database.FormDatabase.Clear | database.py:95-97 | the store is left empty |
| Database.FormDatabase.FindMatchingForm | database.py:35-84 | the scan with its inner field check returns `MatchOf` of the stored templates and the query's detected types |
| App.Put | app.py:46 | defines dictionary assignment on the ordered fields: an existing key keeps its place and takes the value, a new key goes last |
| App.Parsed | app.py:38-51 | defines the parse as a fold of `Put` over the well-formed arguments; `ParsedIsParse` states what it is |
| App.KeyIndex | app.py:46 | the position of a key in the parsed fields, or -1 exactly when the key is absent |
| App.ToMapAgrees | app.py:68-77 | with distinct keys, the dictionary has exactly the parsed names, each with its parsed value |
| App.SplitArgument | app.py:41-49 | an argument yields a pair exactly when it starts with `--` and has `=` after that; the pair splits it at the first `=` |
| App.SplitArgumentOfParts | app.py:41-46 | `--name=value` with no `=` in the name splits back into `(name, value)` |
| App.FirstNamed | app.py:40-46 | the first argument that sets a name, or -1 when none does |
| App.LastNamed | app.py:40-46 | the last argument that sets a name, or -1 when none does |
| App.NamedStep | app.py:40-46 | one more argument that sets a name becomes that name's last setter and leaves every other name's first and last setter alone |
| App.PutExisting | app.py:46 | assigning an existing key replaces its value in place; positions, keys and distinctness are kept |
| App.PutNew | app.py:46 | assigning a new key appends it and keeps keys distinct |
| App.ParseSkips | app.py:47-49 | an argument without the `--name=value` shape changes nothing |
| App.ParseOverwrites | app.py:44-46 | a repeated name keeps its place and takes the new value |
| App.ParseAppends | app.py:44-46 | a new name is added at the end |
| App.ParsedIsParse | app.py:28-51 | the parsed fields have distinct keys, exactly the names that are set, in first-appearance order, each with the value of its last setter |
| App.ParsedKeys | app.py:40-46 | every parsed key is a name set by some argument |
| App.ParsedEmpty | app.py:28-51 | nothing is parsed exactly when no argument has the `--name=value` shape |
| App.ParseArgumentsRoundTrip | app.py:28-51 | spelling distinct fields whose names contain no `=` as `--name=value` arguments and parsing them gives the fields back (a name with `=` is cut at its first `=`) |
| App.ParseArguments | app.py:28-51 | the loop returns `Parsed` of the arguments |
| App.TypeLine | app.py:89 | defines one report line: two spaces, the name, `: ` and the type |
| App.Render | app.py:86-91 | defines the report text: `{` and a line feed, the lines joined by `,` and a line feed, then a line feed and `}` |
| App.Report | app.py:84-91 | defines the report of the query: the rendering of its detected types |
| App.RenderFieldTypes | app.py:82-92 | the loop and join return `Report` of the fields |
| App.DetectedTypes | app.py:84 | one pair per field, in the fields' order, with the field's name and one of the four type tags |
| App.TypeLines | app.py:87-89 | one report line per typed field, in order |
| App.RenderLines | app.py:86-91 | when there is at least one field and no field name contains a line feed, a rendering of typed fields starts with `{` and a line feed, ends with a line feed and `}`, and has one line feed more than it has fields |
| App.JoinNewlines | app.py:90 | joining a non-empty list of lines without line feeds by `",\n"` gives one line feed fewer than the number of lines |
| App.TypeLineNewlines | app.py:88-89 | a report line has no line feed when the field name has none |
| App.ReportLines | app.py:86-91 | when there is at least one field and no field name contains a line feed, the report starts with `{` and a line feed, ends with a line feed and `}`, and has one line feed more than it has fields |
| App.Printed | app.py:54-92 | every outcome's output ends with a line feed |
| App.QueryTypes | app.py:68-77 | the lookup sees one type per name that is set, namely the type of that name's last value |
| App.MainOutcome | app.py:54-94 | defines `main`'s branch for a command line and the stored templates; `MainOutcomeCases` states each branch |
| App.MainOutcomeCases | app.py:54-94 | the usage message exactly without a command; the unknown-command message exactly for another command; the no-fields error exactly when no argument is well formed; otherwise the best template's name, or the report when nothing is eligible |
| App.Run | app.py:54-94 | `main`'s branches, with the store passed in, give `MainOutcome` |
| App.MainOfParsed | app.py:60-92 | once the command is `get_tpl` and the arguments parse to some fields, `main` prints the lookup's non-empty answer when there is one and the report otherwise |
| App.CommandLineParses | app.py:60-68 | a command line spelled from distinct fields whose names contain no `=` names `get_tpl` and parses back to the fields |
| App.MainOfArguments | app.py:54-94 | for a command line spelled from at least one field, with distinct names that contain no `=`, `main` prints the lookup's answer when there is one and the report otherwise |
| Scenarios.UnspacedPhone | validators.py:35 | `+79031234578`, the example phone number without its spaces, is text |
| Scenarios.DayOfMonthExample | validators.py:50-56 | `27.05.2025` is a date |
| Scenarios.YearFirstDayExample | validators.py:59-65 | `2025-05-27` is a date |
| Scenarios.LeapDayExample | validators.py:50-56 | `29.02.2024` is a date |
| Scenarios.DayThirtyTwoExample | validators.py:50-56 | `32.01.2025` is not a date |
| Scenarios.LeapDayOfCommonYearExample | validators.py:50-56 | `29.02.2023` is not a date |
| Scenarios.MonthThirteenExample | validators.py:50-56 | `01.13.2025` is not a date |
| Scenarios.TextExample | validators.py:70-87 | a value without `@` whose length is not 10, 16 or 17 is text |
| Scenarios.EmailExample | validators.py:8-22 | a well-formed local part, domain and top-level domain with no doubled `.` and no `.` at either end make an email |
| Scenarios.LocalPartEndingInDot | validators.py:18-20 | `a.@b.ru` is an email, because the `.` checks look at the whole value |
| Scenarios.PhoneWithLineFeed | validators.py:35-36 | a phone followed by one line feed is still a phone |
| Scenarios.VasyaValue | test_app_examples.py:83 | `vasya@pukin.ru` is an email |
| Scenarios.LoginValue | test_app_examples.py:92 | `test@example.com` is an email |
| Scenarios.DateValue | test_app_examples.py:83 | `27.05.2025` is detected as a date |
| Scenarios.PhoneValue | test_app_examples.py:86 | `+7 903 123 45 78` is a phone |
| Scenarios.TelValue | test_app_examples.py:92 | `+7 999 888 77 66` is a phone |
| Scenarios.TextValues | test_app_examples.py:86 | `John` and `123` are text |
| Scenarios.Lacks | database.py:63-68 | a template with a required field that the query lacks is not eligible |
| Scenarios.Covered | database.py:57-75 | a named template that has at least one field, and whose every field the query supplies with its type, is eligible |
| Scenarios.OnlyEligible | database.py:35-84 | when exactly one template is eligible, the lookup returns its name |
| Scenarios.OthersLack | init_db.py:15-55 | each seeded template has a field that marks it; without that field the template is not eligible |
| Scenarios.ProbaTaken | init_db.py:31-35 | a query with an email `f_name1` and a date `f_name2` makes `Проба` eligible |
| Scenarios.ProbaFound | init_db.py:15-55 | among the seeded templates that query finds `Проба` |
| Scenarios.OrderTaken | init_db.py:22-28 | the order query makes `Форма заказа` eligible |
| Scenarios.OrderFound | init_db.py:15-55 | among the seeded templates that query finds `Форма заказа` |
| Scenarios.NothingFound | init_db.py:15-55 | a date `tumba` and a phone `yumba` match no seeded template |
| Scenarios.UserDataTaken | init_db.py:15-19 | an email `login` and a phone `tel` make `Данные пользователя` eligible |
| Scenarios.UserDataFound | init_db.py:15-55 | among the seeded templates that query finds `Данные пользователя` |
| Scenarios.ToMapSnoc | app.py:46 | assigning one more field updates the dictionary at that key |
| Scenarios.FieldTypesUpdate | database.py:48 | detecting types commutes with assigning one field |
| Scenarios.TwoFieldTypes | database.py:48 | the detected types of a two-field query |
| Scenarios.FourFieldTypes | database.py:48 | the detected types of a four-field query |
| Scenarios.TwoDetectedTypes | app.py:84 | the detected types of two fields, in their order |
| Scenarios.TwoFieldRender | app.py:86-91 | the report of two typed fields, written out |
| Scenarios.ProbaSpelling | test_app_examples.py:83 | example 1's command line is the spelling of its fields |
| Scenarios.ProbaParse | test_app_examples.py:83 | example 1's command line parses to its two fields |
| Scenarios.ProbaTypes | test_app_examples.py:83 | example 1's detected types |
| Scenarios.ProbaCommand | test_app_examples.py:83 | example 1 prints `Проба` |
| Scenarios.OrderSpelling | test_app_examples.py:86 | example 2's command line is the spelling of its fields |
| Scenarios.OrderParse | test_app_examples.py:86 | example 2's command line parses to its four fields |
| Scenarios.OrderTypes | test_app_examples.py:86 | example 2's detected types |
| Scenarios.OrderCommand | test_app_examples.py:86 | example 2 prints `Форма заказа` |
| Scenarios.UnknownSpelling | test_app_examples.py:89 | example 3's command line is the spelling of its fields |
| Scenarios.UnknownParse | test_app_examples.py:89 | example 3's command line parses to its two fields |
| Scenarios.UnknownDetected | test_app_examples.py:89 | example 3's fields are detected as a date and a phone, in order |
| Scenarios.UnknownTypes | test_app_examples.py:89 | example 3's detected types |
| Scenarios.UnknownReport | test_app_examples.py:89 | example 3's report lists `tumba: date` and `yumba: phone` |
| Scenarios.UnknownCommandLine | test_app_examples.py:89 | example 3 finds nothing and prints the report |
| Scenarios.UserDataSpelling | test_app_examples.py:92 | example 4's command line is the spelling of its fields |
| Scenarios.UserDataParse | test_app_examples.py:92 | example 4's command line parses to its two fields |
| Scenarios.UserDataTypes | test_app_examples.py:92 | example 4's detected types |
| Scenarios.UserDataCommand | test_app_examples.py:92 | example 4 prints `Данные пользователя` |
| Strings.StartsWith | validators.py:19 | defines `str.startswith` |
| Strings.EndsWith | validators.py:19 | defines `str.endswith` |
| Strings.Contains | validators.py:19 | defines substring `in` |
| Strings.Join | app.py:90 | defines `str.join`: the items with the separator between neighbours |
| Strings.NotContainsPair | validators.py:19 | a string with no two adjacent given characters does not contain that pair |
| Strings.Find | app.py:44-45 | the first occurrence of a character from a position on, or -1 when there is none |
| Strings.RFind | validators.py:21 | the last occurrence of a character, or -1 when there is none |
| Strings.JoinCons | app.py:90 | joining a list whose head is followed by more items puts the separator after the head |

## Left out

- The document store's file is not part of this model: opening `test_db.json` (database.py:18-19), persisting inserts (database.py:33) and `close` (database.py:22-24). The store is an in-memory sequence that `Run` receives already opened.
- Standard output, `sys.exit` and the exit status are not modelled as effects. `Run` returns an `Outcome` and `Printed` gives its text.
- The Windows re-encoding of standard output and standard error (app.py:11-25) is not modelled, because it is platform I/O.
- `\d` stands for the ASCII digits only. Python's `\d`, the `[12]\d` branch of `strptime`'s `%d` and `%Y`'s `\d\d\d\d` also accept other Unicode decimal digits (`%m` does not), and `int()` reads them, so Python may classify a value such as `1٥.05.2025` as a date, or a phone number with such digits as a phone, where the model calls it text.
- `strptime` is modelled as the Gregorian calendar check for years 1 to 9999, applied to strings of the exact shape.
- Template values that are not strings (JSON numbers, lists and the like) are not modelled. A template is a map from strings to strings.
- The order in which the inner loop of `find_matching_form` visits a template's fields is not modelled: the loop picks any remaining key. The result of the loop does not depend on the order.
- The printing of the seeding script and the process handling of the example script are not modelled. Their data appear as `Scenarios.SeedForms` and the four command lines.

The comment at validators.py:18 speaks of `.` at the start or end of the
local part, but the check on the next line looks at the whole value, so
`a.@b.ru` is accepted. The model follows the code; see
`Scenarios.LocalPartEndingInDot`.
