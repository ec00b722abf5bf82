# MailTrace matcher, modelled in Dafny

MailTrace links a mailing list to a CRM lead list that describe the same
properties under different column names and address spellings. The matcher
works in four steps:

1. It resolves, for each dataset, which header plays the address, city,
   state and zip role. It also finds a few optional business fields (mailed
   date, campaign, first and last name, date entered, job value). A header
   qualifies when its lower-cased, alphanumeric-only form equals that of one
   of the field's aliases.
2. It adds four key columns to each dataset: the cleaned address (`_addr`),
   the normalised city and state (`_city`, `_state`) and the five-character
   zip (`_zip`).
3. It inner-joins the datasets on the four keys and annotates every match
   with a fixed confidence and a match note.
4. It projects the matches onto a list of output columns and summarises the
   run (record counts, matches, revenue, mailers per acquisition).

The project has seven modules, one file each:

- `Results` (`results.dfy`): `Option` (Python's `None`) and `Result`, for the raised `KeyError`.
- `Text` (`text.dfy`): the Python string operations the matcher relies on. These are `lower()`, `strip()`, `split()` and `" ".join`.
- `Schema` (`schema.dfy`): header simplification, `_pick`, `_require`, the alias tables and the resolution of all fields in source order.
- `Normalize` (`normalize.dfy`): `_clean_address`, `_norm` and `_zip5`, with the street-type table and the unit-marker keys.
- `AddressExamples` (`address_examples.dfy`): concrete addresses worked through the clean-up.
- `Matcher` (`matcher.dfy`): the key columns, the join, the merged frame's column naming, the projection, the KPIs and the run itself.
- `Scenario` (`scenario.dfy`): a worked example, a mailing-list record and a CRM record that spell their headers and address differently and give one match.

Where the Python code loops or reassigns step by step, the model is a method
with a loop or a sequence of reassignments. Each such method is proved equal
to a specification function, and the properties are lemmas about that
function. This covers the per-record `.map(_clean_address)`, the loop over
the unit keys, the `parts[-1]` replacement, the `cols` append loops and
`run_matcher` itself. Everything else is a function.

A dataset is a `Table`: its header names in order and its records. A record
maps column names to cell text. A column missing from a record is a missing
(NaN) cell. `_norm` and `_zip5` turn NaN into the text `"nan"`, because NaN
is truthy and `str(nan)` is `"nan"`. So two missing cities match each other
(`Normalize.MissingIsNan`). `_clean_address` turns a non-string cell into
`""`.

### The regular expressions

The three regular expressions in `_clean_address` are raw strings whose
backslashes are doubled (`rf"\\b…\\b\\.?\\s*\\w+"`, `r"[^a-z0-9\\s]"`,
`r"\\s+"`). Read literally, a doubled backslash matches a backslash
character, so:

- the unit-marker pattern only matches text that contains backslashes;
- the whitespace pattern only matches a backslash followed by `s`.

The model defines both readings (`Normalize.Reading`). `Literal` is the code
as written. `WordBoundary` is the evident intent: a word boundary, `\s` and
`\w`. The run (`Matcher.RunMatcher`) uses the intended reading. The
as-written behaviour is proved separately and reported under Findings.

Under the word-boundary reading, address clean-up is not idempotent.
`"apt-5"` cleans to `"apt 5"`, which then reads as a unit marker plus its
number and cleans to `""` (`AddressExamples.CleaningIsNotIdempotent`).

### Output columns

The mail-side output candidates for the resolved address, city, state and
zip are `col + "_mail"`, and the CRM-side ones are `col + "_crm"`. pandas
creates such a name only when both datasets have a column called `col`.
Otherwise the merged column keeps its plain name, the candidate filter drops
it, and the resolved column does not appear in the output
(`Matcher.UnsharedMailColumnOmitted`).

An output record holds cells only in the output columns. An output column
that is the merged name of exactly one merged column holds, in each output
record, the cell of that column in the matched mail or CRM record
(`Matcher.OutputMailCell`, `Matcher.OutputCrmCell`).

## Model

| member | source | states |
|---|---|---|
| Schema.SimplifyIdempotent | MailTrace_START_FRESH/mailtrace_matcher.py:5-6 | simplifying a header a second time changes nothing |
| Schema.ZipCodeSpellings | MailTrace_START_FRESH/mailtrace_matcher.py:5-6 | "Zip Code", "zip-code" and "ZIP_CODE" all simplify to "zipcode" |
| Schema.SimplifiesAroundSeparator | MailTrace_START_FRESH/mailtrace_matcher.py:6 | a header that lower-cases to "zip", one separator, then "code" simplifies to "zipcode" |
| Schema.Pick | MailTrace_START_FRESH/mailtrace_matcher.py:8-14 | None exactly when no header's simplified form is an alias's simplified form; otherwise the first such header in dataset order |
| Schema.Require | MailTrace_START_FRESH/mailtrace_matcher.py:16-20 | fails exactly when nothing or an empty header is picked, with an error naming the field and its aliases; otherwise returns the picked header |
| Schema.MessageNamesFieldAndAliases | MailTrace_START_FRESH/mailtrace_matcher.py:19 | the error text starts with the field's name and contains every alias tried |
| Schema.PickIs | MailTrace_START_FRESH/mailtrace_matcher.py:8-14 | when header k is the first, in dataset order, whose simplified form is a simplified alias, header k is picked |
| Schema.PickAt | MailTrace_START_FRESH/mailtrace_matcher.py:8-14 | the same, with the headers' and aliases' simplified forms worked out beforehand |
| Schema.FieldResolves | MailTrace_START_FRESH/mailtrace_matcher.py:16-20 | a field whose pick is a non-empty header resolves to that header |
| Schema.FirstFailure | MailTrace_START_FRESH/mailtrace_matcher.py:52-64 | the position found holds a failed resolution and every earlier one succeeded; None means every resolution succeeded |
| Schema.FirstMissingMeans | MailTrace_START_FRESH/mailtrace_matcher.py:52-64 | the first missing position is a field that cannot be resolved, every earlier field resolves, and None means that every field resolves |
| Schema.FirstMissingError | MailTrace_START_FRESH/mailtrace_matcher.py:17-19 | the first missing field fails with its own name and alias list |
| Schema.RequireAll | MailTrace_START_FRESH/mailtrace_matcher.py:52-64 | on success there is one column per required field |
| Schema.RequireAllFirstFailure | MailTrace_START_FRESH/mailtrace_matcher.py:52-64 | taking the columns in order fails exactly when some resolution failed, and then with the first failure's error |
| Schema.RequireAllColumn | MailTrace_START_FRESH/mailtrace_matcher.py:52-64 | when all resolutions succeed, each column is the value of its own field's resolution |
| Schema.ResolvedColumn | MailTrace_START_FRESH/mailtrace_matcher.py:52-64 | column k of a successful resolution is the header picked for required field k, and is not empty |
| Schema.Resolve | MailTrace_START_FRESH/mailtrace_matcher.py:52-72 | fails with the first missing required field's error, in source order; otherwise each required column is the one picked and each optional one is Pick's result |
| Schema.ResolveSucceeds | MailTrace_START_FRESH/mailtrace_matcher.py:52-64 | when every required field picks a non-empty header, resolution succeeds with exactly those headers |
| Normalize.CleanAddress | MailTrace_START_FRESH/mailtrace_matcher.py:30-40 | the returned address is the canonical form of the cell and is single-spaced; a missing cell gives "" |
| Normalize.ExpandLastWord | MailTrace_START_FRESH/mailtrace_matcher.py:36-39 | the words with the last one replaced by its full form when it is a street-type abbreviation, every other word kept |
| Normalize.CleanText | MailTrace_START_FRESH/mailtrace_matcher.py:32-35 | lower-cases, expands '&', removes unit markers, replaces punctuation, collapses whitespace and strips, as the address text function defines |
| Normalize.RemoveUnits | MailTrace_START_FRESH/mailtrace_matcher.py:33-34 | the loop deletes the markers of the five unit keys in table order |
| Normalize.RemoveUnitMarkersAppend | MailTrace_START_FRESH/mailtrace_matcher.py:33-34 | deleting the markers of two key lists in turn equals deleting those of their concatenation |
| Normalize.NoMarkersUnchanged | MailTrace_START_FRESH/mailtrace_matcher.py:33-34 | text in which no key's marker occurs is left unchanged by the deletions |
| Normalize.RemovalShortens | MailTrace_START_FRESH/mailtrace_matcher.py:34 | deleting pattern matches never lengthens the text, and strictly shortens it when some match exists |
| Normalize.RemovalUnchangedIff | MailTrace_START_FRESH/mailtrace_matcher.py:34 | deleting matches leaves the text unchanged if and only if nothing matches anywhere |
| Normalize.SubFromNoMatch | MailTrace_START_FRESH/mailtrace_matcher.py:34-35 | a substitution copies text in which nothing matches |
| Normalize.LiteralUnitRemovalInert | MailTrace_START_FRESH/mailtrace_matcher.py:33-34 | as written, the unit-marker deletions leave every backslash-free text unchanged |
| Normalize.LiteralBlanksInert | MailTrace_START_FRESH/mailtrace_matcher.py:35 | as written, the whitespace pattern leaves every backslash-free text unchanged |
| Normalize.AsWrittenIgnoresUnitMarkers | MailTrace_START_FRESH/mailtrace_matcher.py:32-34 | as written, no unit marker is removed from a backslash-free address |
| Normalize.AsWrittenText | MailTrace_START_FRESH/mailtrace_matcher.py:32-35 | as written, a backslash-free address text is only lower-cased, '&'-expanded, depunctuated and stripped |
| Normalize.CollapseSingleSpaced | MailTrace_START_FRESH/mailtrace_matcher.py:35 | collapsing whitespace runs leaves single-spaced text unchanged |
| Normalize.CleanedAddressSingleSpaced | MailTrace_START_FRESH/mailtrace_matcher.py:35-40 | every cleaned address is single-spaced: no leading, trailing, doubled or non-space whitespace |
| Normalize.CleanedAddressWords | MailTrace_START_FRESH/mailtrace_matcher.py:36-40 | the words of the cleaned address are the text's words with the last one expanded; the last word is never an abbreviation that would expand again |
| Normalize.CleanedFromText | MailTrace_START_FRESH/mailtrace_matcher.py:36-40 | an address whose cleaned-up text (after lower-casing and the regexes) already is single-spaced words, not ending in an abbreviation, keeps that cleaned-up text as its canonical form |
| Normalize.AbbreviationMatchesFullWord | MailTrace_START_FRESH/mailtrace_matcher.py:36-40 | addresses differing only in an abbreviated or spelled-out last word have the same canonical form |
| Normalize.LastWordSettled | MailTrace_START_FRESH/mailtrace_matcher.py:37-39 | after the expansion the last word is not an abbreviation that would expand to something else |
| Normalize.SuffixValuesAreTokens | MailTrace_START_FRESH/mailtrace_matcher.py:23-27 | each full word in the street-type table is a non-empty run of lower-case letters and so a single `split()` word |
| Normalize.SuffixValuesSettled | MailTrace_START_FRESH/mailtrace_matcher.py:23-27 | each full word in the street-type table is not itself an abbreviation, or maps to itself |
| Normalize.ExpandSuffixIdempotent | MailTrace_START_FRESH/mailtrace_matcher.py:37-39 | expanding the trailing abbreviation twice equals expanding it once |
| Text.SplitJoin | MailTrace_START_FRESH/mailtrace_matcher.py:36-40 | splitting a single-space join of words gives the words back |
| Text.JoinSingleSpaced | MailTrace_START_FRESH/mailtrace_matcher.py:40 | joining words with single spaces gives a single-spaced string |
| Normalize.Norm | MailTrace_START_FRESH/mailtrace_matcher.py:42 | the result has no surrounding whitespace and no upper-case letter; a missing cell gives "nan" |
| Normalize.NormIdempotent | MailTrace_START_FRESH/mailtrace_matcher.py:42 | normalising a normalised value changes nothing |
| Normalize.NormIgnoresCase | MailTrace_START_FRESH/mailtrace_matcher.py:42 | lower-casing the input first does not change the result |
| Normalize.NormIgnoresPadding | MailTrace_START_FRESH/mailtrace_matcher.py:42 | surrounding whitespace does not change the result |
| Normalize.MissingIsNan | MailTrace_START_FRESH/mailtrace_matcher.py:42 | a missing cell normalises like the text "nan" in any case and padding, so missing values match each other |
| Normalize.Zip5 | MailTrace_START_FRESH/mailtrace_matcher.py:43-45 | the zip is a prefix of the trimmed cell text, of length five or the whole text when shorter |
| Normalize.Zip5Bounds | MailTrace_START_FRESH/mailtrace_matcher.py:43-45 | at most five characters, empty exactly when the trimmed cell is empty, the whole trimmed cell when it is short |
| Normalize.MissingZipIsNan | MailTrace_START_FRESH/mailtrace_matcher.py:44 | a missing zip cell gives "nan" |
| Normalize.ZipPlusFour | MailTrace_START_FRESH/mailtrace_matcher.py:43-45 | a padded ZIP+4 code reduces to its five-digit base |
| Normalize.Zip5IgnoresPadding | MailTrace_START_FRESH/mailtrace_matcher.py:44 | surrounding whitespace does not change the zip |
| AddressExamples.AsWrittenKeepsUnitMarker | MailTrace_START_FRESH/mailtrace_matcher.py:34 | as written, "1 apt 5" cleans to itself: the unit marker stays |
| AddressExamples.IntendedDropsUnitMarker | MailTrace_START_FRESH/mailtrace_matcher.py:34 | with word boundaries, "1 apt 5" cleans to "1" |
| AddressExamples.HyphenatedUnitCleaned | MailTrace_START_FRESH/mailtrace_matcher.py:30-40 | "apt-5" cleans to "apt 5" |
| AddressExamples.SpacedUnitCleaned | MailTrace_START_FRESH/mailtrace_matcher.py:30-40 | "apt 5" cleans to "" |
| AddressExamples.CleaningIsNotIdempotent | MailTrace_START_FRESH/mailtrace_matcher.py:30-40 | cleaning the cleaned form of "apt-5" changes it again |
| Matcher.SetColumn | MailTrace_START_FRESH/mailtrace_matcher.py:75-79 | a column assignment keeps the records, leaves an existing column where it is or appends a new one at the end, and changes only that column's cells |
| Matcher.CleanAddresses | MailTrace_START_FRESH/mailtrace_matcher.py:75-76 | the per-record loop gives each record's cleaned address cell, in record order |
| Matcher.AddKeys | MailTrace_START_FRESH/mailtrace_matcher.py:75-79 | the four key columns are assigned in source order |
| Matcher.KeyOfWithKeys | MailTrace_START_FRESH/mailtrace_matcher.py:75-81 | a record's join key is its zip, normalised city and state, and cleaned address |
| Matcher.JoinSpec | MailTrace_START_FRESH/mailtrace_matcher.py:81-82 | a pair is joined exactly when both records exist and their keys are equal; no pair repeats; at most mail times CRM pairs |
| Matcher.JoinSymmetric | MailTrace_START_FRESH/mailtrace_matcher.py:82 | joining CRM to mail gives the same pairs, reversed, as joining mail to CRM |
| Matcher.JoinedNames | MailTrace_START_FRESH/mailtrace_matcher.py:82-85 | the merged columns are the mail columns (non-key shared names get "_mail"), the non-key CRM columns (shared names get "_crm") and the two annotations |
| Matcher.AnnotationsWin | MailTrace_START_FRESH/mailtrace_matcher.py:84-85 | whatever the input columns, "confidence" and "match_notes" hold the fixed values |
| Matcher.PresentSpec | MailTrace_START_FRESH/mailtrace_matcher.py:87-98 | a name is kept exactly when some candidate for it is non-empty and is a merged column |
| Matcher.KeepPresent | MailTrace_START_FRESH/mailtrace_matcher.py:87-98 | the append loop collects the kept candidates, in candidate order |
| Matcher.PresentFrom | MailTrace_START_FRESH/mailtrace_matcher.py:87-98 | the kept names are the candidates that are non-empty merged columns, listed by strictly increasing candidate position, with none left out |
| Matcher.ResultColumnOrder | MailTrace_START_FRESH/mailtrace_matcher.py:87-100 | the output columns are the kept mail candidates in candidate order, then the kept CRM candidates in candidate order, then "confidence" and "match_notes" |
| Matcher.MailersPerAcquisition | MailTrace_START_FRESH/mailtrace_matcher.py:105 | None exactly when there are no matches; otherwise the value times the matches is the mail count |
| Matcher.RevenueNonNegative | MailTrace_START_FRESH/mailtrace_matcher.py:104 | with non-negative amounts, the summed revenue is non-negative |
| Matcher.RunMatcher | MailTrace_START_FRESH/mailtrace_matcher.py:51-108 | the run equals the specification function; fails exactly when a required field is missing; counts, the match bound and the ratio hold |
| Matcher.MatchFailsOnFirstMissing | MailTrace_START_FRESH/mailtrace_matcher.py:52-64 | the run fails exactly when a required field cannot be resolved, with the first such field's error |
| Matcher.MissingCrmZipAborts | MailTrace_START_FRESH/mailtrace_matcher.py:64 | with the seven other fields present and no zip alias among the CRM headers, the run raises the CRM zip error |
| Matcher.OutputRecordsInColumns | MailTrace_START_FRESH/mailtrace_matcher.py:100-101 | no output record holds a cell outside the output columns |
| Matcher.OutputMailCell | MailTrace_START_FRESH/mailtrace_matcher.py:82-101 | an output column that is the merged name of mail column col, and of no other merged column, holds in every output record col's cell of the matched mail record |
| Matcher.OutputCrmCell | MailTrace_START_FRESH/mailtrace_matcher.py:82-101 | an output column that is the merged name of non-key CRM column col, and of no other merged column, holds in every output record col's cell of the matched CRM record |
| Matcher.FindUnique | MailTrace_START_FRESH/mailtrace_matcher.py:82 | a merged column name that occurs once reads from the one column of that name |
| Matcher.AssembleRowsArePairs | MailTrace_START_FRESH/mailtrace_matcher.py:81-101 | one output record per key-equal pair, each the projection of that pair's merged record |
| Matcher.AssembleKpis | MailTrace_START_FRESH/mailtrace_matcher.py:103-107 | totals are the dataset sizes, matches are the output records and at most mail times CRM, the ratio is None exactly when nothing matched and otherwise times the matches gives the mail count |
| Matcher.AssembleAnnotated | MailTrace_START_FRESH/mailtrace_matcher.py:84-100 | the last two output columns are the annotations, and every output record holds the fixed confidence and note |
| Matcher.AssembleColumnsAreCandidates | MailTrace_START_FRESH/mailtrace_matcher.py:87-100 | every other output column is a non-empty merged column named by some candidate |
| Matcher.AssembleRevenue | MailTrace_START_FRESH/mailtrace_matcher.py:104 | revenue is the sum of the job values of the output records when the job-value column is an output column, zero otherwise, and non-negative when all amounts are |
| Scenario.ScenarioResolves | MailTrace_START_FRESH/mailtrace_matcher.py:52-64 | the example's headers "Address, City, State, Zip" and "Address, city, st, zipcode" resolve to those columns |
| Scenario.SameStreet | MailTrace_START_FRESH/mailtrace_matcher.py:36-40 | "123 Main St" and "123 Main Street" clean to the same address key |
| Scenario.MailKey | MailTrace_START_FRESH/mailtrace_matcher.py:75-81 | the example mail record's key is zip "78701", city "austin", state "tx" and its cleaned address |
| Scenario.CrmKey | MailTrace_START_FRESH/mailtrace_matcher.py:75-81 | the example CRM record, with zip "78701-1234", has the zip "78701" and the same city and state keys |
| Scenario.SingleMatch | MailTrace_START_FRESH/mailtrace_matcher.py:81-103 | one record on each side with equal keys gives exactly one match, carrying the fixed confidence |
| Scenario.ScenarioMatches | MailTrace_START_FRESH/mailtrace_matcher.py:51-108 | the worked example runs without error and produces exactly one match record, with confidence "95" |
| Matcher.UnsharedMailColumnOmitted | MailTrace_START_FRESH/mailtrace_matcher.py:87-92 | a resolved mail column whose name the CRM dataset lacks does not appear in the output |

## Left out

- Reading the two CSV files (lines 48-49) and the web front end are I/O. Each dataset is a `Table` given to the run.
- pandas type inference is not modelled. Every present cell is text, so a zip read as a number, losing its leading zeros, is not represented.
- Matcher.RevenueSum: when pandas does not read the job-value column as numbers, the sum at line 104 raises, and the model does not represent that error. Its `amount` function gives every cell a number, so the model always returns a revenue.
- Floating point is not modelled. `round(…, 2)` is left out and the ratio is an exact real. Revenue is an integer sum through the caller's `amount` function, a missing cell counting 0 as `fillna(0)` does.
- `lower()` maps ASCII letters only, and `\w` covers ASCII letters, digits and `_`. Unicode case mapping and Unicode word characters are left out.
- Matcher.Join: matches come in mail-major order. pandas' own row order for an inner merge is not modelled.
- Matcher.Find: when suffixing makes one name occur twice on the same side of the merge, pandas raises a merge error, and the model does not. When the two sides end up with the same name, pandas keeps two output columns of that name, and the model keeps one. In both cases the model silently reads the last column of that name. `Matcher.OutputMailCell` and `Matcher.OutputCrmCell` describe only names that occur once.
- Matcher.KeyOfWithKeys: stated only when no resolved address, city, state or zip column is itself named like a key column (`_addr`, `_city`, `_state`, `_zip`).
- The confidence column holds the text "95", since cells are text.
- `results = joined.copy()` when `cols` is empty cannot happen, because the annotations are always appended. The model has no such branch.

## Findings

| source | as written | input that shows it | evidently intended | confidence | as-written member | corrected member |
|---|---|---|---|---|---|---|
| MailTrace_START_FRESH/mailtrace_matcher.py:34-35 | the doubled backslashes in the raw-string patterns match a literal backslash, so no unit marker is removed, and the `\\s+` substitution never fires on backslash-free text | `"1 apt 5"` cleans to `"1 apt 5"` | `\b`, `\s`, `\w`, so the unit marker and its number are removed | not executed | AddressExamples.AsWrittenKeepsUnitMarker | AddressExamples.IntendedDropsUnitMarker |
