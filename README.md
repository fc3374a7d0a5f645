# BaselHack25 insurance form and underwriting engine — a Dafny model

BaselHack25 is a health-insurance application. A web form collects an applicant's name,
smoking habits, height, weight, date of birth and sports. The form can be prefilled from an
extraction payload, and it validates each field in the visitor's language. A Python
underwriting engine turns the applicant into four features (BMI, age, smoker, sport). It picks a
decision from a cascade of threshold rules and consults a learned rule table. With learning
on, it corrects or extends that table.

The Dafny project models this core. Each file corresponds to one part of the program:

- `wrappers.dfy` — `Option` and `Result`.
- `text.dfy` — the string built-ins the core relies on: JavaScript's `split` with one
  separator, `join`, `filter(Boolean)` and `trim`, and decimal digit strings.
- `form_types.dfy` — the form's value types and the grammar of `NAME_REGEX`. It is written
  both as a matcher (`MatchesName`) and as a shape predicate (`NameShaped`), and proved equal.
- `form_dates.dfy` — JavaScript dates as local calendar dates with rollover, plus `yearsAgo`,
  `formatDDMMYYYY` and `parseLooseDob`. `yearsAgo` is a mutable `JsDate` object with
  `setFullYear`.
- `validators.dfy` — the per-field validators of `makeValidators(t)`.
- `prefill.dfy` — the prefill reconciler. Each `prefill…` step is a method from the form state
  before to the state after, and it counts the fields it applied.
- `prefill_validation.dfy` — how prefilled values relate to the validators.
- `sports_section.dfy` — the add, rename, level and remove handlers of the sports list, and
  the rule that the last row cannot be removed.
- `language_switcher.dfy` — the locale prefix read off the pathname, the URL pushed on a
  switch, and the dropdown options.
- `rule_tables.dfy` — the similarity search and learning step shared by both engines. The rule
  table is a `RuleTable` object updated in place.
- `backend_decide.dfy` — the current engine (`code/backend/decide.py`).
- `legacy_decide.dfy` — the earlier engine (`code/decide.py`), including how it derives
  features from raw form data.

Where the design description and the code disagree, the model follows the code:

- `parseLooseDob` does not reject an impossible day or month. It rolls over, as
  `new Date(y, m - 1, d)` does. See `FormDates.ParseRollsOverDay` and
  `FormDates.ParseRollsOverMonth`.
- The cigarette count is checked only against 0 and 30. Fractions pass.
- There is no insurance-price validator in the validators file.
- The age limits are date comparisons against `yearsAgo(100)` and `yearsAgo(1)`, not an
  integer age.

## Model

| member | source | states |
|---|---|---|
| Text.Split | code/frontend/app/components/LanguageSwitcher.tsx:21 | `split` with one separator yields at least one piece, and no piece holds the separator |
| Text.Join | code/frontend/app/components/LanguageSwitcher.tsx:24 | `join` starts with the first piece, and with two or more pieces the separator follows it; the round trips with `split` are in `Text.JoinSplit` and `Text.SplitJoin` |
| Text.JoinSplit | code/frontend/app/components/LanguageSwitcher.tsx:24 | joining the pieces of a split with the same separator gives back the string |
| Text.SplitJoin | code/frontend/app/components/LanguageSwitcher.tsx:24 | splitting a join of separator-free pieces gives back the pieces |
| Text.SplitAppend | code/frontend/helpers/form/date.ts:9 | splitting `a + sep + b` gives the pieces of `a` followed by those of `b` |
| Text.NonEmpty | code/frontend/app/components/LanguageSwitcher.tsx:21 | `filter(Boolean)` keeps only non-empty pieces taken from its input, and never more of them |
| Text.NonEmptyAppend | code/frontend/app/components/LanguageSwitcher.tsx:21 | filtering distributes over concatenation |
| Text.NonEmptyKeepsNonEmpty | code/frontend/app/components/LanguageSwitcher.tsx:21 | a list of non-empty pieces is kept whole |
| Text.TrimStart | code/frontend/helpers/form/validators.ts:6 | removes a whitespace-only prefix and leaves a string that does not start with whitespace |
| Text.TrimEnd | code/frontend/helpers/form/validators.ts:6 | removes a whitespace-only suffix and leaves a string that does not end with whitespace |
| Text.Trim | code/frontend/helpers/form/validators.ts:6 | `trim()` is a contiguous piece of its input with no whitespace at either end |
| Text.TrimIdempotent | code/frontend/helpers/form/prefill.ts:35 | trimming twice equals trimming once |
| Text.TrimPadded | code/frontend/helpers/form/validators.ts:6 | whitespace around an untrimmable string is exactly what `trim` removes |
| Text.TrimAllWhitespace | code/frontend/helpers/form/validators.ts:7 | a whitespace-only string trims to "" |
| Text.DecimalValueBound | code/frontend/helpers/form/date.ts:10 | a digit string of length k has a value below 10^k |
| Text.DecimalValue | code/frontend/helpers/form/date.ts:16 | `Number` of a digit string: its last decimal digit is the last character. Dropping that character divides the value by ten (`Text.DecimalValueDropLast`), and the value is bounded by `Text.DecimalValueBound` |
| Text.DecimalValueDropLast | code/frontend/helpers/form/date.ts:16 | the value of a digit string without its last digit is the value divided by ten |
| FormTypes.SmokeValues | code/frontend/helpers/form/types.ts:1 | the three smoking answers are "yes", "no" and null, each distinct |
| FormTypes.LevelValues | code/frontend/helpers/form/types.ts:2 | the two levels are "hobby" and "competitive", each distinct |
| FormTypes.MatchesName | code/frontend/helpers/form/types.ts:7 | a string `NAME_REGEX` accepts is non-empty and starts and ends with a letter; the full characterisation is `FormTypes.MatchesNameIff` |
| FormTypes.MatchesAfterLetter | code/frontend/helpers/form/types.ts:7 | a non-empty tail accepted after the first letter ends with a letter; the full characterisation is `FormTypes.AfterLetterIff` |
| FormTypes.AfterLetterIff | code/frontend/helpers/form/types.ts:7 | the matcher for the part after the first letter accepts exactly the strings of letters and single separators that end in a letter |
| FormTypes.MatchesNameIff | code/frontend/helpers/form/types.ts:7 | `NAME_REGEX` accepts a string if and only if it is non-empty, starts and ends with a letter, holds only letters and the separators space, apostrophe and hyphen, and never has two separators in a row |
| FormTypes.EmptyIsNoName | code/frontend/helpers/form/types.ts:7 | the empty string is not a name |
| FormTypes.NameBoundaries | code/frontend/helpers/form/types.ts:7 | a name starts and ends with a letter and has no two adjacent separators |
| FormTypes.LetterRunIsName | code/frontend/helpers/form/types.ts:7 | a non-empty run of letters is a name |
| FormTypes.JoinedNamesAreName | code/frontend/helpers/form/types.ts:7 | two names joined by one separator form a name, such as "Jean-Luc" or "O'Neil" |
| FormTypes.NameIsTrimmed | code/frontend/helpers/form/types.ts:7 | a name has no surrounding whitespace |
| FormDates.DaysInMonth | code/frontend/helpers/form/date.ts:17 | every month has from 28 to 31 days |
| FormDates.Normalize | code/frontend/helpers/form/date.ts:17 | rolling a day number over the month boundaries always yields a valid calendar date |
| FormDates.MakeDate | code/frontend/helpers/form/date.ts:17 | `new Date(y, m - 1, d)` with any month and day yields a valid calendar date |
| FormDates.NormalizeValid | code/frontend/helpers/form/date.ts:17 | a valid date is left unchanged by the rollover |
| FormDates.NormalizeMonthDay | code/frontend/helpers/form/date.ts:3 | a day of month 1 to 31 that the month lacks can only be 29 February of a common year, and it becomes 1 March |
| FormDates.NextDay | code/frontend/helpers/form/date.ts:17 | the day after is a valid, later date, in the same year unless it is 1 January after 31 December |
| FormDates.JsDate.SetFullYear | code/frontend/helpers/form/date.ts:3 | `setFullYear` keeps the month, day and time of day and rolls an impossible day over; the value stays valid |
| FormDates.ShiftYears | code/frontend/helpers/form/date.ts:1-5 | `setFullYear(getFullYear() - n)` on `now`: a valid date in year `now.year - n` at the same time of day, in the same month except that 29 February of a common year moves to March; `FormDates.ShiftYearsCalendar` states the day as well |
| FormDates.YearsAgo | code/frontend/helpers/form/date.ts:1-5 | `yearsAgo(n)` returns a new date equal to `ShiftYears(now, n)` |
| FormDates.ShiftYearsCalendar | code/frontend/helpers/form/date.ts:1-5 | `yearsAgo(n)` lands in year `now.year - n` at the same time of day. It keeps the month and day when that day exists; 29 February in a common year becomes 1 March |
| FormDates.ShiftYearsOrder | code/frontend/helpers/form/date.ts:1-5 | going back more years gives a strictly earlier date, and any positive number of years gives a date before `now` |
| FormDates.FormatDDMMYYYY | code/frontend/helpers/form/date.ts:7-11 | the result is "" exactly for null and "", and otherwise holds a "."; `FormDates.FormatIso` and `FormDates.FormatThenParse` state what it gives for an ISO date |
| FormDates.ConstructorYear | code/frontend/helpers/form/date.ts:17 | the year `new Date(y, m, d)` uses is never from 0 to 99: a year from 0 to 99 is taken as 1900 + y, any other is kept |
| FormDates.ParseLooseDob | code/frontend/helpers/form/date.ts:13-25 | null and "" give null; an ISO or "DD.MM.YYYY" string gives a valid moment at local midnight; any other string gives what the fallback `new Date(raw)` parser gives |
| FormDates.ParseNothing | code/frontend/helpers/form/date.ts:14 | null and "" parse to null |
| FormDates.FormatNothing | code/frontend/helpers/form/date.ts:8 | null and "" format as "" |
| FormDates.FormatWithoutDash | code/frontend/helpers/form/date.ts:9-10 | a string without "-" formats with "undefined" for the missing day and month |
| FormDates.FormatIso | code/frontend/helpers/form/date.ts:7-11 | "YYYY-MM-DD" formats as "DD.MM.YYYY" with the same digit pieces, a string of the dotted shape |
| FormDates.SplitThree | code/frontend/helpers/form/date.ts:16 | three separator-free pieces joined by the separator split into those three pieces |
| FormDates.IsoPieces | code/frontend/helpers/form/date.ts:15-16 | an ISO-shaped string splits on "-" into its year, month and day digits |
| FormDates.DottedPieces | code/frontend/helpers/form/date.ts:19-20 | a dotted string splits on "." into its day, month and year digits |
| FormDates.LocalMidnight | code/frontend/helpers/form/date.ts:17 | `new Date(y, m - 1, d)` is a valid moment |
| FormDates.ParseIso | code/frontend/helpers/form/date.ts:15-18 | an ISO string parses to local midnight of the date built from its year, month and day numbers |
| FormDates.ParseDotted | code/frontend/helpers/form/date.ts:19-22 | a "DD.MM.YYYY" string parses to local midnight of the date built from its numbers |
| FormDates.FormatThenParse | code/frontend/helpers/form/date.ts:7-22 | formatting an ISO date as "DD.MM.YYYY" and parsing the result gives the date the ISO text parses to |
| FormDates.ParseIsoExact | code/frontend/helpers/form/date.ts:15-18 | an ISO string naming a real date after the year 99 parses to exactly that date |
| FormDates.ParseRollsOverDay | code/frontend/helpers/form/date.ts:19-22 | "31.02.2020" is not rejected: it parses to 2 March 2020 |
| FormDates.RollOverDay | code/frontend/helpers/form/date.ts:21 | `new Date(2020, 1, 31)` is 2 March 2020 |
| FormDates.ParseRollsOverMonth | code/frontend/helpers/form/date.ts:15-18 | "2020-13-01" is not rejected: it parses to 1 January 2021 |
| FormDates.RollOverMonth | code/frontend/helpers/form/date.ts:17 | `new Date(2020, 12, 1)` is 1 January 2021 |
| FormDates.DecimalValues | code/frontend/helpers/form/date.ts:16 | `Number` of the digit strings used in the rollover examples |
| Validators.Name | code/frontend/helpers/form/validators.ts:5-16 | blank after trimming gives the required message, a trimmed value that does not match `NAME_REGEX` gives `name_invalid`, and the value passes if and only if its trimmed form is name-shaped |
| Validators.FirstName | code/frontend/helpers/form/validators.ts:5-10 | as `Name`, with `first_name_required` |
| Validators.LastName | code/frontend/helpers/form/validators.ts:11-16 | as `Name`, with `last_name_required` |
| Validators.PaddedNamesPass | code/frontend/helpers/form/validators.ts:5-16 | any name with whitespace around it passes both name validators |
| Validators.BlankAndDigitNames | code/frontend/helpers/form/validators.ts:5-10 | a whitespace-only first name is reported missing, and a run of digits is reported invalid |
| Validators.BlankNameMissing | code/frontend/helpers/form/validators.ts:5-10 | a whitespace-only first name gets `first_name_required` |
| Validators.DigitNameInvalid | code/frontend/helpers/form/validators.ts:5-10 | a non-empty run of digits as first name gets `name_invalid` |
| Validators.SmokeAnswer | code/frontend/helpers/form/validators.ts:17 | defined as: the required message exactly when the answer is unset. Its partner is `PrefillValidation.PrefilledSmokePasses` |
| PrefillValidation.PrefilledSmokePasses | code/frontend/helpers/form/validators.ts:17 | a smoking answer taken over from a prefill payload never fails the smoking validator |
| Validators.CigarettesPerDay | code/frontend/helpers/form/validators.ts:18-25 | no check for a non-smoker. For a smoker: required, then NaN or below 0 gives `cpd_min`, above 30 gives `cpd_max`. The count passes if and only if it is a finite number from 0 to 30 |
| Validators.Bounded | code/frontend/helpers/form/validators.ts:26-39 | required, then the minimum message, then the maximum message. The value passes if and only if it lies within the bounds or is NaN, since JavaScript comparisons with NaN are false |
| Validators.Height | code/frontend/helpers/form/validators.ts:26-32 | height is required and must lie from 50 to 250, with the message for each violation |
| Validators.Weight | code/frontend/helpers/form/validators.ts:33-39 | weight is required and must lie from 2 to 300, with the message for each violation |
| Validators.BeforeTransitive | code/frontend/helpers/form/validators.ts:45-47 | date comparison is transitive |
| Validators.Dob | code/frontend/helpers/form/validators.ts:40-49 | checked in order: required, not after now, not before `yearsAgo(100)`, not after `yearsAgo(1)`, each with its message. The dates accepted are exactly those from `yearsAgo(100)` to `yearsAgo(1)` |
| Validators.DobOneYearBoundary | code/frontend/helpers/form/validators.ts:44-47 | a person born at midnight exactly one year ago passes; one born a day later is too young |
| Prefill.Coalesce | code/frontend/helpers/form/prefill.ts:35 | defined as `a ?? b`: `a` when present, `b` otherwise. Its properties are in `Prefill.NamePriority`, `Prefill.EmptySnakeNameHidesCamel` and `Prefill.EmptyDateOfBirthHidesDob` |
| Prefill.Applied | code/frontend/helpers/form/prefill.ts:36 | defined as 1 for a written value and 0 otherwise. Its properties are in `Prefill.PrefillCount` and `Prefill.CountZeroIffNothingWritten` |
| Prefill.NameValue | code/frontend/helpers/form/prefill.ts:34-40 | a name is written if and only if either key holds a non-empty string. The snake-case key is used whenever it is present, even as ""; the value written is trimmed |
| Prefill.SmokeValue | code/frontend/helpers/form/prefill.ts:50-56 | defined as: a boolean `smokes` maps to yes or no, otherwise `smoke` is taken when it is "yes" or "no". An unset answer is never written (`PrefillValidation.PrefilledSmokePasses`). Its properties are in `Prefill.PrefillState` and `Prefill.PrefillIdempotent` |
| Prefill.NumberValue | code/frontend/helpers/form/prefill.ts:65-71 | defined as the first non-null key, written as a number. Its properties are in `Prefill.PrefillMetrics`, `Prefill.PrefillState` and `Prefill.PrefillIdempotent` |
| Prefill.HobbyEntries | code/frontend/helpers/form/prefill.ts:96 | one hobby-level entry per name, in order |
| Prefill.SportNames | code/frontend/helpers/form/prefill.ts:96 | the names of the entries, in order |
| Prefill.SportsValue | code/frontend/helpers/form/prefill.ts:95-96 | sports are written if and only if the list is present and non-empty, and the entries carry its names in order, all at the hobby level |
| Prefill.DobValue | code/frontend/helpers/form/prefill.ts:106-109 | the date written is what parsing `date_of_birth ?? dob` gives |
| Prefill.PrefillNames | code/frontend/helpers/form/prefill.ts:28-43 | writes each name field that has a value, leaves the rest of the state unchanged, and counts the writes |
| Prefill.PrefillSmoking | code/frontend/helpers/form/prefill.ts:45-58 | writes the smoking answer when there is one, and counts it |
| Prefill.PrefillCigarettes | code/frontend/helpers/form/prefill.ts:60-73 | writes the cigarette count when there is one, and counts it |
| Prefill.PrefillMetrics | code/frontend/helpers/form/prefill.ts:75-88 | writes height and weight independently, and counts them |
| Prefill.PrefillSports | code/frontend/helpers/form/prefill.ts:90-100 | writes the sports list when there is one, and counts it |
| Prefill.PrefillDob | code/frontend/helpers/form/prefill.ts:102-114 | writes the date of birth only when it parses, and otherwise returns the state unchanged and counts 0 |
| Prefill.PrefillState | code/frontend/helpers/form/prefill.ts:116-143 | every field with no value in the payload keeps its old value |
| Prefill.PrefillCount | code/frontend/helpers/form/prefill.ts:135-142 | at most 8 fields are applied |
| Prefill.PrefillAll | code/frontend/helpers/form/prefill.ts:116-143 | the six steps in order give exactly `PrefillState` and the count `PrefillCount`, which is at most 8 |
| Prefill.NamePriority | code/frontend/helpers/form/prefill.ts:34-35 | the snake-case key wins whenever it holds a name, the camel-case key is used when the snake-case one is missing, and nothing is written when neither holds a name |
| Prefill.EmptySnakeNameHidesCamel | code/frontend/helpers/form/prefill.ts:34-35 | `first_name: ""` next to a camel-case name writes "" and counts it |
| Prefill.EmptyDateOfBirthHidesDob | code/frontend/helpers/form/prefill.ts:106-107 | `date_of_birth: ""` hides `dob`, and nothing is written |
| Prefill.SportsKeepNames | code/frontend/helpers/form/prefill.ts:95-96 | a non-empty list is written name by name, in order, each at the hobby level |
| Prefill.HobbyEntriesNames | code/frontend/helpers/form/prefill.ts:96 | the entries' names are the list that was given |
| Prefill.EmptyPayloadChangesNothing | code/frontend/helpers/form/prefill.ts:116-143 | a payload without keys writes and counts nothing |
| Prefill.CountZeroIffNothingWritten | code/frontend/helpers/form/prefill.ts:116-143 | the count is 0 if and only if the prefill leaves every state unchanged |
| Prefill.NoValueWhenFixed | code/frontend/helpers/form/prefill.ts:116-143 | if two states that differ in every field are both left unchanged, nothing was counted |
| Prefill.PrefillIdempotent | code/frontend/helpers/form/prefill.ts:116-143 | prefilling twice with the same payload equals prefilling once |
| SportsSection.AddSport | code/frontend/app/components/form/SportsSection.tsx:25-27 | defined as the list with one blank hobby entry appended. Its partner is `SportsSection.RemoveUndoesAdd` |
| SportsSection.RemoveSport | code/frontend/app/components/form/SportsSection.tsx:28-30 | removes exactly the entry at `i` when `i` is in range, and otherwise leaves the list unchanged |
| SportsSection.Patched | code/frontend/app/components/form/SportsSection.tsx:32 | defined as `{ ...row, ...patch }`: each field the patch sets, the row's otherwise. Its properties are in `SportsSection.UpdateWithoutChange` and `SportsSection.RenameTwice` |
| SportsSection.UpdateSport | code/frontend/app/components/form/SportsSection.tsx:31-33 | same length; only entry `i` changes, and it is patched |
| SportsSection.LevelOrDefault | code/frontend/app/components/form/SportsSection.tsx:50 | defined as `v ?? "hobby"`. Its partner is `SportsSection.ClearLevelIsHobby` |
| SportsSection.Enabled | code/frontend/app/components/form/SportsSection.tsx:37-62 | the actions the rendered section offers: the add button, and the row controls for rows that exist; an enabled remove leaves at least one row, since the button is disabled on a single row |
| SportsSection.Step | code/frontend/app/components/form/SportsSection.tsx:37-67 | a disabled action does nothing, a remove shortens the list by one, and the others never shorten it |
| SportsSection.Run | code/frontend/app/components/form/SportsSection.tsx:37-67 | a sequence of user actions grows the list by at most one entry per action, and no actions change nothing; `SportsSection.RunKeepsAnEntry` shows it never empties a non-empty list |
| SportsSection.StepKeepsAnEntry | code/frontend/app/components/form/SportsSection.tsx:62 | with the remove button disabled on a single row, no action empties a non-empty list |
| SportsSection.RunKeepsAnEntry | code/frontend/app/components/form/SportsSection.tsx:62 | no sequence of actions empties a non-empty list |
| SportsSection.RemoveUndoesAdd | code/frontend/app/components/form/SportsSection.tsx:25-30 | removing the row just added restores the list |
| SportsSection.UpdateWithoutChange | code/frontend/app/components/form/SportsSection.tsx:31-33 | an empty patch, or one that writes back the row's own fields, changes nothing |
| SportsSection.RenameTwice | code/frontend/app/components/form/SportsSection.tsx:44 | renaming a row twice keeps only the second name |
| SportsSection.ClearLevelIsHobby | code/frontend/app/components/form/SportsSection.tsx:50 | clearing a row's level select sets it to hobby and keeps its name |
| LanguageSwitcher.Pathname | code/frontend/app/components/LanguageSwitcher.tsx:17 | defined as `usePathname() || "/"`. Its partner is `LanguageSwitcher.MissingPathname` |
| LanguageSwitcher.MissingPathname | code/frontend/app/components/LanguageSwitcher.tsx:17-24 | without a pathname the page has no segments, is shown in English, and its rest is "/" |
| LanguageSwitcher.Parts | code/frontend/app/components/LanguageSwitcher.tsx:21 | the segments are non-empty and hold no "/" |
| LanguageSwitcher.HasLocale | code/frontend/app/components/LanguageSwitcher.tsx:22 | defined as: the first segment is a supported locale. Its properties are in `LanguageSwitcher.Current`, `LanguageSwitcher.BareLocale` and `LanguageSwitcher.NoPrefix` |
| LanguageSwitcher.Current | code/frontend/app/components/LanguageSwitcher.tsx:22-23 | always a supported locale: the first segment when it is one, and English otherwise |
| LanguageSwitcher.Rest | code/frontend/app/components/LanguageSwitcher.tsx:24 | defined as the segments after the locale behind one "/", or the whole pathname when there is no locale. Its properties are in `LanguageSwitcher.PartsOfRest` and `LanguageSwitcher.RestIsAbsolute` |
| LanguageSwitcher.Query | code/frontend/app/components/LanguageSwitcher.tsx:25-26 | defined as "?" and the query string, or "" when it is empty. Its partner is `LanguageSwitcher.Target`, which appends it to the pushed URL |
| LanguageSwitcher.SwitchedPath | code/frontend/app/components/LanguageSwitcher.tsx:41 | the pushed path starts with "/" and the chosen locale, and the rest of it is the page's `Rest` |
| LanguageSwitcher.Target | code/frontend/app/components/LanguageSwitcher.tsx:39-42 | defined as: nothing for a cleared selection, otherwise "/" + next + rest + query. Its properties are in `LanguageSwitcher.SwitchedParts`, `LanguageSwitcher.SwitchedCurrent` and `LanguageSwitcher.SwitchTwice` |
| LanguageSwitcher.Label | code/frontend/app/components/LanguageSwitcher.tsx:9-14 | a locale has a non-empty label if and only if it is supported |
| LanguageSwitcher.LabelNames | code/frontend/app/components/LanguageSwitcher.tsx:9-14 | the labels are English, Deutsch, Français and Italiano |
| LanguageSwitcher.InLocales | code/frontend/app/components/LanguageSwitcher.tsx:28 | keeps only entries of the order that are supported locales |
| LanguageSwitcher.Options | code/frontend/app/components/LanguageSwitcher.tsx:28-31 | one option per listed locale, with its label |
| LanguageSwitcher.OrderFiltered | code/frontend/app/components/LanguageSwitcher.tsx:8-28 | filtering the order "en", "fr", "de", "it" by the supported locales keeps all four |
| LanguageSwitcher.OptionsListed | code/frontend/app/components/LanguageSwitcher.tsx:28-31 | the options are the four locales in dropdown order, each with its label |
| LanguageSwitcher.OptionsOrder | code/frontend/app/components/LanguageSwitcher.tsx:8-14 | the dropdown is English, Français, Deutsch, Italiano, in that order, covering each locale of code/frontend/baselhack_pax/i18n/routing.ts once |
| LanguageSwitcher.BareLocale | code/frontend/app/components/LanguageSwitcher.tsx:21-24 | "/de" is shown in German, and its rest is "/" |
| LanguageSwitcher.PartsOfSlash | code/frontend/app/components/LanguageSwitcher.tsx:21 | a leading "/" adds no segment |
| LanguageSwitcher.PartsOfPrefixed | code/frontend/app/components/LanguageSwitcher.tsx:41 | "/" + w + rest has the segment `w` followed by the segments of the rest |
| LanguageSwitcher.PartsOfRest | code/frontend/app/components/LanguageSwitcher.tsx:24 | the rest holds the segments after the locale, or all of them when there is no locale |
| LanguageSwitcher.RestIsAbsolute | code/frontend/app/components/LanguageSwitcher.tsx:24 | the rest of an absolute pathname starts with "/" |
| LanguageSwitcher.SwitchedParts | code/frontend/app/components/LanguageSwitcher.tsx:39-42 | the pushed path is the new locale followed by the page's segments without the old locale |
| LanguageSwitcher.SwitchedCurrent | code/frontend/app/components/LanguageSwitcher.tsx:23 | the pushed path reads back as the chosen locale |
| LanguageSwitcher.SwitchTwice | code/frontend/app/components/LanguageSwitcher.tsx:39-42 | switching to a and then b gives the same segments as switching to b directly |
| LanguageSwitcher.NoPrefix | code/frontend/app/components/LanguageSwitcher.tsx:22-24 | without a locale prefix the page is English and the whole pathname is kept |
| RuleTables.VerdictLabels | code/backend/decide.py:13-68 | the four decision texts are distinct and are the only ones the rule produces |
| RuleTables.NewRule | code/backend/decide.py:117-124 | the appended row carries the applicant's features and the given decision and comment |
| RuleTables.Abs | code/backend/decide.py:76-77 | `abs` is non-negative and zero exactly at zero |
| RuleTables.Matches | code/backend/decide.py:99-104 | defined as agreement on all four features. Its properties are in `RuleTables.Similarity` and `RuleTables.PerfectMatchIff` |
| RuleTables.Similarity | code/backend/decide.py:74-80 | similarity is at most 4, and equals 4 if and only if the row matches the applicant on all four features |
| RuleTables.BestIndex | code/backend/decide.py:83-86 | `idxmax` finds a row of greatest similarity, and every earlier row is strictly less similar, so it is the first maximum |
| RuleTables.PerfectMatch | code/backend/decide.py:99-104 | defined as: the most similar row matches the applicant. Its properties are in `RuleTables.PerfectMatchIff` and `RuleTables.LearningTeaches` |
| RuleTables.PerfectMatchIff | code/backend/decide.py:97-104 | the best row matches exactly if and only if some row does, and it is then the first such row |
| RuleTables.BestIndexOnlyFeatures | code/backend/decide.py:83-86 | the search depends only on the rows' features, not on their decisions or comments |
| RuleTables.Learned | code/backend/decide.py:106-125 | without learning the table is unchanged. A perfect match with another decision gets the operational decision and comment written over it. Without a perfect match the applicant is appended |
| RuleTables.TableAnswer | code/backend/decide.py:106-115 | the answer is the best row's decision and comment, except after a correction, when it is the operational one |
| RuleTables.DecidedRows | code/backend/decide.py:92-127 | the table after `decide_and_learn`: unchanged without learning or when it is empty. Otherwise it keeps its size or grows by one row; `RuleTables.Learned` and `RuleTables.LearnedSize` say which |
| RuleTables.LearnedSize | code/backend/decide.py:106-125 | the table grows by exactly one row when learning finds no perfect match. Every other row, and the features of the best row, are kept |
| RuleTables.LearningTeaches | code/backend/decide.py:106-125 | after learning, the table holds a row matching the applicant exactly, and that row has the operational decision |
| RuleTables.LearningSettles | code/backend/decide.py:106-125 | learning twice from the same applicant changes nothing more than learning once |
| RuleTables.RuleTable.Consult | code/backend/decide.py:97-125 | an empty table raises ValueError and is unchanged; otherwise the table answers and becomes `Learned` |
| BackendDecide.OperationalRule | code/backend/decide.py:13-68 | the cascade in source order, with its comments. Anyone over 85, and anyone with BMI above 45, is rejected |
| BackendDecide.AdolescentRule | code/backend/decide.py:29-33 | a minor who passes the hard rejections is accepted with BMI from 16 to 30, and otherwise needs more information |
| BackendDecide.HealthyAdultAccepted | code/backend/decide.py:62-65 | a non-smoker aged 18 to 60 with BMI from 18.5 to 30 is accepted |
| BackendDecide.AdultSmokerNotAccepted | code/backend/decide.py:13-68 | an adult smoker is never plainly accepted |
| BackendDecide.SmokingMinorAccepted | code/backend/decide.py:23-33 | a minor with BMI from 16 to 30 is accepted whether or not they smoke |
| BackendDecide.InactiveElderRejected | code/backend/decide.py:15-40 | anyone over 75 who does no sport is rejected |
| BackendDecide.Decide | code/backend/decide.py:92-127 | ValueError exactly for an empty table. Otherwise the operational decision and comment, and the table's answer: the operational decision and comment when learning corrects a disagreeing exact row, and the best row's decision and comment in every other case |
| BackendDecide.DecideAndLearn | code/backend/decide.py:92-127 | returns `Decide` and leaves the table at `RuleTables.DecidedRows` with the operational ruling |
| BackendDecide.LearningOutcome | code/backend/decide.py:106-125 | with learning: without an exact row the best row's decision and comment are returned and the applicant is appended with the operational verdict; a disagreeing exact row is corrected and the operational decision and comment are returned; an agreeing exact row is returned as it stands and the table is unchanged |
| BackendDecide.LearnedThenPredicted | code/backend/decide.py:92-138 | after a learning call, predicting the same applicant returns the operational decision |
| BackendDecide.Engine.constructor | code/backend/decide.py:8 | the table starts with the loaded rows |
| BackendDecide.Engine.PredictDecision | code/backend/decide.py:133-138 | the best row's decision and comment without learning, or ValueError for an empty table; the table is unchanged |
| BackendDecide.Engine.ReplaceRuleTable | code/backend/decide.py:143-162 | the global table is replaced by a new one holding exactly the given rules, and their count is returned |
| LegacyDecide.OperationalRule | code/decide.py:25-37 | six branches in order. A smoker with BMI above 30 is rejected, and an inactive smoker otherwise pays extra |
| LegacyDecide.OperationalRuleCases | code/decide.py:25-37 | exactly which applicants are rejected, charged extra or asked for more information |
| LegacyDecide.SeedRulesAgainstRule | code/decide.py:11-37 | the first five seed rows agree with the rule. The sixth is stored as "accepted with extra charge", but the rule gives "need for additional information" |
| LegacyDecide.Decide | code/decide.py:61-93 | ValueError exactly for an empty table. Otherwise the operational decision and always the operational comment. The decision is the operational one when learning corrects a disagreeing exact row, and the best row's otherwise |
| LegacyDecide.DecideAndLearn | code/decide.py:61-93 | returns `Decide` and leaves the table at `RuleTables.DecidedRows` with the operational ruling |
| LegacyDecide.LearningOutcome | code/decide.py:75-91 | with learning the comment is always the operational one. Without an exact row the best row's decision is returned and the applicant is appended; a disagreeing exact row is corrected and the operational decision returned; an agreeing exact row leaves the table unchanged |
| LegacyDecide.SeedRowCorrected | code/decide.py:75-79 | learning from the sixth seed row's own features rewrites that row alone, and answers "need for additional information" |
| LegacyDecide.SeedSixthBest | code/decide.py:11-18 | the sixth seed row is the first to match its own features exactly |
| LegacyDecide.RoundTenth | code/decide.py:105 | `round(v, 1)` is a multiple of 0.1 within 0.05 of `v`, and not negative when `v` is not |
| LegacyDecide.RoundTenthTies | code/decide.py:105 | ties go to the even tenth: 0.25 gives 0.2, 0.75 gives 0.8, and 22.04 gives 22.0 |
| LegacyDecide.ExactBmi | code/decide.py:104-105 | defined as `weight_kg / (height_cm / 100) ** 2`. Its properties are in `LegacyDecide.Bmi` |
| LegacyDecide.Bmi | code/decide.py:104-105 | the BMI is within 0.05 of the exact quotient and a whole number of tenths |
| LegacyDecide.PyIsSpace | code/decide.py:106 | a character `int()` skips is not a digit, a sign or "." |
| LegacyDecide.StripStart | code/decide.py:106 | removes exactly the leading whitespace: what is cut off is whitespace, and what is left does not start with it |
| LegacyDecide.StripEnd | code/decide.py:106 | removes exactly the trailing whitespace: what is cut off is whitespace, and what is left does not end with it |
| LegacyDecide.LastField | code/decide.py:106 | the last "."-separated field holds no ".", and a string without "." is its own last field |
| LegacyDecide.PyInt | code/decide.py:106 | `int()` of a digit string is its decimal value, and `int("")` raises |
| LegacyDecide.DeriveFeatures | code/decide.py:103-115 | the features, or the exception in source order: TypeError for a missing height or weight, then ZeroDivisionError for a height of 0, AttributeError for a missing date of birth, ValueError when its last field is not an integer, and TypeError for a missing sports list. BMI is rounded to one decimal, age is 2025 less the last "."-separated field, and sport means a non-empty list |
| LegacyDecide.DottedBirthYear | code/decide.py:106 | a "DD.MM.YYYY" date of birth gives its year |
| LegacyDecide.IsoBirthDateRejected | code/decide.py:106 | a "YYYY-MM-DD" date of birth makes the prediction raise ValueError |
| LegacyDecide.IsoDateNotInteger | code/decide.py:106 | the last field of a "YYYY-MM-DD" string is the whole string, and `int()` rejects it |
| LegacyDecide.Predict | code/decide.py:99-118 | the derivation's exception, or ValueError for an empty table, or the best row's decision with the operational comment |
| LegacyDecide.Engine.constructor | code/decide.py:20 | the table starts with the six seed rows |
| LegacyDecide.Engine.PredictDecision | code/decide.py:99-118 | returns `Predict` for the current table and leaves the table unchanged |
| LegacyDecide.Engine.ReplaceRuleTable | code/decide.py:123-142 | the global table is replaced by a new one holding exactly the given rules, and their count is returned |

## Left out

- The localisation function `t` is a parameter of the validators. The message keys are modelled, but not the texts.
- The Unicode letter class `\p{L}` of `NAME_REGEX` is a parameter `isLetter`. Where the name proofs need it, it is constrained by `LetterClass`: no whitespace, no name separator, no ASCII digit.
- The clock `new Date()` is a parameter `now`. `Validators.Dob` reads it once for `now`, `yearsAgo(100)` and `yearsAgo(1)`; the source reads it three times, possibly a few milliseconds apart.
- `new Date(raw)`, the generic fallback of `parseLooseDob`, is a parameter `fallback`.
- Time zones and daylight-saving time are not modelled. A date is its local calendar day and the milliseconds since local midnight.
- The `Date` range limit (±8.64e15 ms) and the Invalid Date object are not modelled. `parseLooseDob` never yields an Invalid Date, because it maps it to null.
- JavaScript and Python floating point are not modelled: numbers are exact reals, or NaN for JavaScript. Infinities are not modelled. `Number(v)` on a number is the identity.
- LegacyDecide.RoundTenth: rounds the exact value half to even. Python rounds the nearest double, so a few ties can round differently in the source.
- LegacyDecide.PyInt: accepts only ASCII digits. Python's `int()` also accepts underscores between digits and other Unicode decimal digits.
- The pandas frame's index labels are taken to be positions 0, 1, …. That holds for a freshly built frame, and the append at label `len(rules_df)` keeps it so.
- Python's duck typing is not modelled: the features are typed, and a row with missing keys in `replace_rule_table`'s input is not modelled.
- Loading `learned_rules.csv` at import is I/O. The initial rows are the `BackendDecide.Engine.constructor` parameter.
- `LEARN_FLAG` is never read by either engine, so it is not modelled.
- LanguageSwitcher.SwitchedParts: the switching lemmas assume a pathname that starts with "/". The framework's `usePathname` guarantees this.
- LanguageSwitcher.Query: the text of the search parameters is taken as given, not computed from them.
- `router.push` is modelled by the URL it receives (`LanguageSwitcher.Target`).
- React state setters are modelled as immediate record updates, so batching and re-rendering are not modelled. The form fields not written by the core are not modelled.
- Rendering is not part of this model: the components' markup, the sports name suggestions, the Mantine widgets.
- The other modules are not part of this model: the notification registry, the submission assembler, the price predictor, the reasoning agent, the FastAPI and Streamlit apps, and the admin and result pages.
