# AzureLogChecker sign-in classifier, in Dafny

AzureLogChecker is a small desktop tool. It reads an Azure AD sign-in log
export (CSV). It lists every sign-in whose `Location` does not end in the
selected home country's ISO 3166-1 alpha-2 code. This project models its
logic and proves properties of it:

- `text.dfy` (module `Text`): ASCII case-folding, the whitespace class `\s` of
  Python's `re`, and Python's substring test `needle in haystack`.
- `classifier.dfy` (module `Classifier`): the home-country test
  `,\s*CODE$` (case-insensitive, NaN never matches) as an explicit backward
  scan, proved equal to a declarative reading of the pattern. Also the
  mismatch partition (positions, Location cells, count).
- `countries.dfy` (module `Countries`): the drop-down's country list
  (priority names, separator, rest of the registry) and its
  search-as-you-type filter. The class `CountrySearchDropdown` has a fixed
  `countries` list; `SearchCountry` overwrites `filteredCountries` and
  `values`.
- `analyzer.dfy` (module `Analyzer`): the window state as class
  `SignInLogAnalyzer` (`filename`, `data`, the drop-down, the summary label,
  the details view). It has `LoadFile`, `AnalyzeLogs` and the
  `DisplayDetails` loop. `AnalyzeLogs` is proved against the pure function
  `Analyze`, which gives every outcome of one press of "Analyze".
- `lists.dfy` (module `Lists`): the conditional list comprehension
  `[x for x in xs if keep(x)]` that both the country list and the search use,
  with what it preserves (order, multiplicity, no duplicates).
- `wrappers.dfy` (module `Wrappers`): `Option`, used for NaN cells and "nothing loaded".

The external collaborators are parameters:
- the file dialog's answer and the parsed table are arguments of `LoadFile`;
- the registry's names are the argument of the constructors;
- the registry's name-to-code lookup is a `map<string, Alpha2>` passed to `AnalyzeLogs`;
- the key pressed is the argument of `SearchCountry`.

Behaviour of the code worth noting:
- After the separator come the registry's names in the registry's own
  order; the list is not sorted.
- When a `Username` column exists, the details show the cell as printed, and
  a NaN cell prints as `nan`. `N/A` is shown only when the column is absent.
- The code never checks the shape of the country code: it is always a
  registry `alpha_2` value. The model types it as `Alpha2` (two upper-case
  letters).
- The name lookup is the registry's own (fuzzy) lookup. Here it is an
  abstract partial map; a name it does not resolve gives the generic
  "An error occurred" outcome.
- Python's `$` also matches just before one final newline, so
  `"Leeds, GB\n"` is home. The model includes this.

## Model

| member | source | states |
|---|---|---|
| `Text.ContainsIff` | AzureLogCheckerGUI.py:116 | the substring scan behind `term in name` holds exactly when the term occurs at some position of the name |
| `Text.ContainsEmpty` | AzureLogCheckerGUI.py:116 | the empty string occurs in every name |
| `Classifier.CommaThenSpacesIff` | AzureLogCheckerGUI.py:63 | the backward scan finds a comma followed only by `\s` characters exactly when one exists |
| `Classifier.EndsWithCodeIff` | AzureLogCheckerGUI.py:63-64 | the suffix check holds exactly when some comma, then only whitespace, then the code (ignoring case) ends the string |
| `Classifier.IsHomeIff` | AzureLogCheckerGUI.py:63-64 | a present Location is home exactly when `,\s*CODE$` is found in it case-insensitively, including `$` before a final newline |
| `Classifier.IsHome` | AzureLogCheckerGUI.py:63-64 | the row test of the mask: a home Location is present (NaN never matches) and at least three characters long; `IsHomeIff` states what it decides |
| `Classifier.OtherSuffixNotHome` | AzureLogCheckerGUI.py:63-64 | a Location that does not end in a newline and whose last two characters are not the code (ignoring case) is never home |
| `Classifier.MismatchIndices` | AzureLogCheckerGUI.py:64-67 | the reported positions are at most as many as the rows, and each is the position of a row |
| `Classifier.MismatchIndicesSpec` | AzureLogCheckerGUI.py:64-67 | the reported positions are strictly increasing, and a position is reported exactly when its row is not home; a NaN Location is always reported |
| `Classifier.HomeCount` | AzureLogCheckerGUI.py:64 | the number of rows the mask leaves out is at most the number of rows; `MismatchCount` relates it to the count |
| `Classifier.MismatchCount` | AzureLogCheckerGUI.py:69 | the count is the number of rows minus the number of home rows |
| `Classifier.LocationsAreMaskedColumn` | AzureLogCheckerGUI.py:66-67 | the Location cells looked up at the reported positions are exactly the Location column of the rows the mask keeps, in file order |
| `Classifier.ExampleMixedRows` | AzureLogCheckerGUI.py:63-67 | for code GB, rows "London, England, GB", "Paris, FR" and a NaN Location report positions 1 and 2 |
| `Classifier.ExampleCaseAndSpacing` | AzureLogCheckerGUI.py:63-64 | "dubai, uae, ae" is home for AE; a tab and space after the comma and a final newline are allowed; "Leeds GB" without a comma is not home |
| `Lists.FilterAppend` | AzureLogCheckerGUI.py:108 | a list comprehension distributes over concatenation, so kept entries keep their relative order |
| `Lists.FilterCount` | AzureLogCheckerGUI.py:116 | a list comprehension keeps each accepted value as often as the input holds it and drops each rejected value |
| `Lists.FilterNoDuplicates` | AzureLogCheckerGUI.py:108 | a list comprehension over a list without duplicates has none |
| `Lists.Filter` | AzureLogCheckerGUI.py:108 | a list comprehension returns no more entries than its input, each satisfying the condition |
| `Countries.CountryList` | AzureLogCheckerGUI.py:107-109 | the list has at least the five fixed entries, the separator fifth, and after it only registry names that are not priority names; `CountryListShape` gives the full shape |
| `Countries.CountryListShape` | AzureLogCheckerGUI.py:107-109 | the list starts with the four priority names and the separator; each priority name occurs exactly once; every other name occurs as often as in the registry |
| `Countries.CountryListNoDuplicates` | AzureLogCheckerGUI.py:107-109 | with unique registry names, none of them the separator, the list has no duplicates |
| `Countries.Matching` | AzureLogCheckerGUI.py:116 | the search offers no more names than the full list, each containing the typed text ignoring case; `MatchingSpec` characterises it |
| `Countries.MatchingSpec` | AzureLogCheckerGUI.py:116 | a name is offered exactly when it is in the full list and contains the term ignoring case, as often as in the list, in list order |
| `Countries.MatchingEmptyTerm` | AzureLogCheckerGUI.py:114-116 | an empty key offers the whole list |
| `Countries.MatchingIdempotent` | AzureLogCheckerGUI.py:116 | filtering the result again with the same key changes nothing |
| `Countries.CountrySearchDropdown.constructor` | AzureLogCheckerGUI.py:104-111 | the full list is the country list; the filtered list and the shown values start as the full list |
| `Countries.CountrySearchDropdown.Set` | AzureLogCheckerGUI.py:27 | setting the entry text changes only the selection |
| `Countries.CountrySearchDropdown.SearchCountry` | AzureLogCheckerGUI.py:114-117 | the filtered list becomes the full list filtered by the key, not the previous result, is drawn from the full list (no entry more often than there), and is what the combobox shows |
| `Analyzer.Analyze` | AzureLogCheckerGUI.py:57-77 | nothing loaded, an empty name or the separator give "not ready"; an unresolved name gives a lookup error; no Location column gives that error; otherwise a report: the resolved code, exactly the non-home rows in order with their Location cells, and their count |
| `Analyzer.EmptyExportReportsNothing` | AzureLogCheckerGUI.py:62-70 | an export with no rows yields a report with count 0 and no rows |
| `Analyzer.MissingColumnRefused` | AzureLogCheckerGUI.py:72-73 | without a Location column, a resolvable name yields the missing-column error and no report |
| `Analyzer.DetailLines` | AzureLogCheckerGUI.py:82-84 | one line per pair of `zip(indices, locations)`, stopping at the shorter, line k numbered `indices[k] + 2` |
| `Analyzer.DetailOf` | AzureLogCheckerGUI.py:83-84 | the line of one reported row: number index + 2, the Username cell as printed or "N/A" without the column, the Location as printed; `ReportDetails` states it for every report |
| `Analyzer.CellText` | AzureLogCheckerGUI.py:84 | a cell prints as its text, a NaN cell as `nan`; `ReportDetails` states the lines through it |
| `Analyzer.ReportDetails` | AzureLogCheckerGUI.py:79-85 | a report's details have one line per reported row, line k numbered reported position k + 2 in increasing order, with that row's Location and its Username cell, or "N/A" when the column is absent; every row that is not home has a line |
| `Analyzer.SignInLogAnalyzer.constructor` | AzureLogCheckerGUI.py:14-27 | nothing is loaded, the drop-down holds the country list with "United Kingdom" selected, and the result widgets are empty |
| `Analyzer.SignInLogAnalyzer.LoadFile` | AzureLogCheckerGUI.py:48-55 | the chosen path is always recorded; the table is replaced only when a file was chosen and parsed, so a cancelled or failed load keeps the previous table |
| `Analyzer.SignInLogAnalyzer.AnalyzeLogs` | AzureLogCheckerGUI.py:57-77 | the outcome is `Analyze` of the state; a report sets the summary and the details; any error leaves both unchanged |
| `Analyzer.SignInLogAnalyzer.DisplayDetails` | AzureLogCheckerGUI.py:79-85 | the details view is cleared, then holds one line per pair of `zip(indices, locations)` |

## Left out

- Window construction, grid layout, the main loop, message boxes and the Read Me window (AzureLogCheckerGUI.py:9-46, 87-100, 120-127). These are presentation only; error messages are the `Outcome` and `LoadStatus` values.
- The file dialog and CSV parsing: `LoadFile` receives their results as parameters.
- The registry's fuzzy name lookup: an abstract partial map from names to codes.
- Python's full case-insensitive matching: only ASCII letters are folded. `re` also equates a few non-ASCII letters with ASCII ones (the Kelvin sign with K). `str.lower()` folds all Unicode letters.
- A Location column that pandas does not read as text makes `.str` raise, which gives the generic error. This happens when every cell is empty or numeric. The model treats every Location column as text, with NaN cells as `None`.
- Text rendering: the summary label and the detail lines are kept as tuples (`Summary`, `Detail`), not formatted strings.
- Regular expressions in general and pandas' vectorised string methods: only this one pattern is modelled.
