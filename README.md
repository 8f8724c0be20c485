# Vacancy search core, modelled in Dafny

This project models the core of a small job-vacancy tool built on the HeadHunter
search API. Raw postings come in as loosely typed dicts. Each becomes a
`Vacancy`, with its salary rendered as display text and read back as a number.
Stored vacancies are filtered by keyword and by salary range, and ranked by
salary. Records persist in one of two file formats.

Modules, one per source file or concern:

- `Vacancy` (`vacancy.dfy`) is the string-salary record the interactive
  program uses. It covers field normalisation, rendering a salary mapping as
  `"X-Y C"`, `"from X C"` or `"up to Y C"`, and the numeric salary (the largest
  digit run of the comma-stripped text). It also has the six comparisons, which
  look at the numeric salary only, plus `__str__` and the dict round trip.
- `StructuredVacancy` (`structured_vacancy.dfy`) is the second record. Its
  fields are stored unchanged. Its numeric salary is optional and comes from
  the `from` entry alone. Its `from_dict` fills defaults.
- `Queries` (`queries.dfy`) holds the three expressions of the menu program:
  the keyword filter, the salary-range filter and `sorted(..., reverse=True)[:n]`.
  They are built on the generic `Seqs` (filter, subsequence, Python slicing)
  and `Ranking` (stable descending sort) modules.
- `JsonStore` (`json_store.dfy`) is the de-duplicating store. The file is one
  JSON array, read whole and rewritten whole. It is a class whose state is the
  sequence of records plus a flag saying whether the file reads as valid JSON.
- `LineLog` (`line_log.dfy`) is the append-only store, one JSON document per
  line. It is a class whose state is the sequence of lines plus two flags: whether
  the file exists, and whether it can be opened for reading.
- `Text` (`text.dfy`) and `PyValues` (`py_values.dfy`) are the primitives.
  `Text` covers ASCII digits, `str(int)`, `s.replace(",", "")`,
  `re.findall(r"\d+", s)`, `max`, `str.lower` and `in`. `PyValues` covers
  Python truthiness, `str()` and the exceptions that can escape.

Python values are `Scalar = Null | Bool | Int | Str`, and a salary mapping is
`Object(map<string, Scalar>)`. An exception the code lets escape is the `Err`
side of a `Result`.

File I/O is passed in as parameters. Whether a write succeeds is the
`writeOk` argument of each writing method. Whether the file can be read is part
of the store's state.

Behaviour worth knowing, as the code has it:

- The range filter tests whether one number lies within the bounds
  (`min <= numeric <= max`, main.py:99). It does not test interval overlap.
- The keyword filter takes one keyword, not a list of words that must all match.
- Top-N with a negative `n` is Python's `[:n]`, which drops the `-n` lowest
  paid vacancies. It does not return an empty list.
- The string-salary `from_dict` raises `KeyError` for a missing key. Only the
  structured record's `from_dict` fills defaults.
- A `None` title becomes `""`, so a title can be empty after normalisation.
  A missing title key makes `from_dict` raise `KeyError`.
- The line log does not tolerate a malformed line. `get_vacancies` raises,
  because only `IOError` is caught.

## Model

| member | source | states |
|---|---|---|
| `Text.NatToDecimal` | vacancies/vacancy.py:41 | `str(n)` of a non-negative integer is a non-empty string of digits that reads back as `n`, with no leading zero (`"0"` for 0) |
| `Text.IntToDecimal` | vacancies/vacancy.py:61 | `str(i)` is the digits of `i`, or for negative `i` a minus sign followed by the digits of `-i`; the digits never start with a superfluous zero |
| `Text.StripCommas` | vacancies/vacancy.py:78 | `salary.replace(",", "")` leaves no comma and never lengthens the text |
| `Text.StripCommasDropsComma` | vacancies/vacancy.py:78 | a comma is removed and the text on both sides of it is kept; with `StripCommasAppend` and `StripCommasNoComma` this fixes `replace(",", "")` on every text, e.g. `"1,000"` becomes `"1000"` |
| `Text.DigitsValue` | vacancies/vacancy.py:83 | `int(d)` of an ASCII digit string (also `int(salary_from)` at src/vacancies/vacancy.py:23): the decimal reading, positive when the first digit is not 0 |
| `Text.DigitsValueLeadingZero` | vacancies/vacancy.py:83 | `int` ignores a leading zero: `int("0" + d) == int(d)` |
| `Text.DecimalOfDigits` | vacancies/vacancy.py:83 | a digit string without a leading zero is `str(int(d))`; with `NatToDecimal` this makes `str` and `int` inverse on canonical digits |
| `Text.DigitRuns` | vacancies/vacancy.py:78 | every run `re.findall(r"\d+", ...)` returns is a non-empty string of digits |
| `Text.Lower` | main.py:79 | `str.lower` keeps the length and lower-cases each character on its own (ASCII and the Cyrillic capitals U+0400-U+052F) |
| `Text.Contains` | main.py:79 | `sub in s`: `sub` occurs at some position of `s` |
| `PyValues.ScalarTruthy` | vacancies/vacancy.py:55-64 | `None`, `False`, `0` and `""` are falsy and every other scalar is truthy |
| `PyValues.Truthy` | vacancies/vacancy.py:55 | a mapping is truthy iff it is non-empty; a scalar as above |
| `PyValues.PyStr` | vacancies/vacancy.py:41 | `str()` of a string is the string; `str(0)` is `"0"`; a positive int gives its digits without a leading zero, reading back as the int; a negative int gives a minus sign and then the digits of its absolute value, again without a leading zero; `None` gives `"None"`; a bool gives `"True"` or `"False"` |
| `PyValues.Get` | vacancies/vacancy.py:57-59 | `m.get(key, default)`: the entry when the key is present, else the default |
| `Text.DigitRunsCoverDigits` | vacancies/vacancy.py:78 | the runs `\d+` finds, joined together, are exactly the digits of the text in order |
| `Text.DigitRunsSplit` | vacancies/vacancy.py:78 | a non-digit separates runs: the runs of `a + c + b` are those of `a` followed by those of `b` |
| `Text.DigitRunsOfDigitString` | vacancies/vacancy.py:78 | a non-empty all-digit text is exactly one run |
| `Text.MaxValue` | vacancies/vacancy.py:80-83 | `max(map(int, runs))` is at least every run's value and equals one of them; it is 0 when there are no runs |
| `Text.RangeTextRuns` | vacancies/vacancy.py:78 | after comma stripping, the runs of `"X-Y C"` with digit-free `C` are exactly `X` and `Y` |
| `Text.LabelledTextRuns` | vacancies/vacancy.py:78 | after comma stripping, the runs of `"from X C"` / `"up to X C"` with digit-free `C` are exactly `X` |
| `Vacancy.ValidateString` | vacancies/vacancy.py:31-41 | `None` becomes `""`; every other scalar becomes its `str()` (so a string is kept as is, an int becomes its canonical digits, a bool `"True"`/`"False"`) |
| `Vacancy.ValidateSalary` | vacancies/vacancy.py:43-66 | a string salary is kept verbatim (even `""`); a falsy non-string gives the sentinel; a truthy non-string, non-mapping raises `AttributeError` and nothing else raises; a mapping without truthy `from`/`to` gives the sentinel; with both truthy it is `"X-Y C"`, with only `from` truthy `"from X C"`, with only `to` truthy `"up to Y C"`, where X, Y and C are `str()` of `from`, `to` and `currency` (default `""`) |
| `Vacancy.NewVacancy` | vacancies/vacancy.py:16-29 | construction fails exactly when salary validation fails; otherwise the fields are the validated title, link, salary and description |
| `Vacancy.NumericSalary` | vacancies/vacancy.py:68-83 | the sentinel and any salary text without digits read as 0; a text that is all digits reads as its value |
| `Vacancy.NumericSalaryIsLargestRun` | vacancies/vacancy.py:68-83 | the numeric salary is 0 for the sentinel; otherwise it is at least every digit run of the comma-stripped text and equal to one of them, or 0 if there is none |
| `Vacancy.RangeSalaryNumeric` | vacancies/vacancy.py:60-61 | for positive int bounds X and Y and a currency without digits, the constructed vacancy's numeric salary is max(X, Y) |
| `Vacancy.FromSalaryNumeric` | vacancies/vacancy.py:62-63 | with a positive int `from` X, a falsy `to` and a digit-free currency, the numeric salary is X |
| `Vacancy.UpToSalaryNumeric` | vacancies/vacancy.py:64-65 | with a falsy `from`, a positive int `to` Y and a digit-free currency, the numeric salary is Y |
| `Vacancy.Lt` | vacancies/vacancy.py:85-95 | `a < b` compares the numeric salaries |
| `Vacancy.Le` | vacancies/vacancy.py:97-107 | `a <= b` compares the numeric salaries |
| `Vacancy.Gt` | vacancies/vacancy.py:109-119 | `a > b` compares the numeric salaries |
| `Vacancy.Ge` | vacancies/vacancy.py:121-131 | `a >= b` compares the numeric salaries |
| `Vacancy.Eq` | vacancies/vacancy.py:133-143 | `a == b` compares the numeric salaries |
| `Vacancy.Ne` | vacancies/vacancy.py:145-155 | `a != b` compares the numeric salaries |
| `Vacancy.ComparisonsConsistent` | vacancies/vacancy.py:85-155 | exactly one of `<`, `==`, `>` holds; `<=`, `>=`, `!=` are their combinations; `>` and `>=` are `<` and `<=` swapped |
| `Vacancy.LeTotalPreorder` | vacancies/vacancy.py:97-107 | `<=` is total and transitive |
| `Vacancy.EqIgnoresOtherFields` | vacancies/vacancy.py:133-143 | `==` holds between vacancies with the same salary text whatever their title, link and description |
| `Vacancy.Display` | vacancies/vacancy.py:157-164 | `str(v)` is the title, then `" ("`, then the salary, then `")"` |
| `Vacancy.ToDict` | vacancies/vacancy.py:166-178 | `to_dict` has exactly the keys title, link, salary, description, each holding the field as a string |
| `Vacancy.FromDict` | vacancies/vacancy.py:180-196 | a missing key raises `KeyError`, naming the first missing one in the order title, link, salary, description; with all four keys present the result is the constructor applied to the stored values, so a truthy non-string, non-mapping salary raises `AttributeError`; success implies all four keys are present |
| `Vacancy.RoundTrip` | vacancies/vacancy.py:166-196 | `from_dict(to_dict(v))` reproduces `v` exactly |
| `StructuredVacancy.NumericSalary` | src/vacancies/vacancy.py:17-26 | a falsy salary gives `None`; a truthy non-mapping raises `AttributeError`; a number comes only from `from`, as its int value (a bool `from` gives 1 or 0) or as the value of an all-digit string; a non-digit string gives `None` |
| `StructuredVacancy.NumericSalaryIgnoresTo` | src/vacancies/vacancy.py:20-26 | adding, changing or removing the `to` entry does not change the numeric salary |
| `StructuredVacancy.DigitStringAgreesWithInt` | src/vacancies/vacancy.py:22-25 | `{"from": "N"}` and `{"from": N}` both give N |
| `StructuredVacancy.NonDigitStringsGiveNone` | src/vacancies/vacancy.py:22-26 | `from` values `""`, `"-5"` and `"1,000"` give `None` |
| `StructuredVacancy.ToDict` | src/vacancies/vacancy.py:28-34 | exactly the keys name, url, salary, description, holding the stored values |
| `StructuredVacancy.FromDict` | src/vacancies/vacancy.py:36-43 | present keys are taken as they are; missing ones default to `"Неизвестно"`, `""`, `None` and `"Нет описания"` |
| `StructuredVacancy.RoundTrip` | src/vacancies/vacancy.py:28-43 | `from_dict(to_dict(v))` reproduces all four fields |
| `StructuredVacancy.MissingSalaryGivesNone` | src/vacancies/vacancy.py:41 | a dict without a salary, or with `None` there, loads to a vacancy whose numeric salary is `None` |
| `Seqs.Filter` | main.py:78-80 | a list comprehension's result is no longer than its input, every kept element passes the test, and an element is kept iff it is in the input and passes |
| `Seqs.FilterCounts` | main.py:78-80 | a list comprehension keeps each passing element as often as it occurs and drops every other |
| `Seqs.FilterIsSubsequence` | main.py:78-80 | a list comprehension's result is a subsequence of its input |
| `Seqs.Take` | main.py:61 | `s[:n]` is a prefix of length `min(n, len)` for `n >= 0`, and of length `max(0, len + n)` for negative `n` |
| `Queries.FilterByKeyword` | main.py:78-80 | keeps exactly the vacancies whose lower-cased description contains the lower-cased keyword, with multiplicity, as a subsequence of the input |
| `Queries.EmptyKeywordKeepsAll` | main.py:78-80 | the empty keyword keeps every vacancy |
| `Queries.FilterBySalaryRange` | main.py:96-100 | keeps exactly the vacancies with `min <= numeric salary <= max`, with multiplicity, as a subsequence of the input |
| `Queries.InvertedRangeIsEmpty` | main.py:96-100 | `min > max` selects nothing |
| `Queries.UnspecifiedSalaryInRange` | main.py:99 | a vacancy with the sentinel salary passes iff `min <= 0 <= max` |
| `Queries.SortBySalaryDesc` | main.py:61 | `sorted(vs, reverse=True)` is a permutation of `vs` with non-increasing numeric salary |
| `Queries.SortIsStable` | main.py:61 | for each salary value, the vacancies earning it keep their input order |
| `Queries.SortIdempotent` | main.py:61 | sorting a sorted list changes nothing |
| `Queries.TopN` | main.py:61 | for `n >= 0` returns `min(n, len)` vacancies (`max(0, len + n)` for negative `n`), sorted, a prefix of the sorted list and a sub-multiset of the input; nothing left out earns more than anything kept |
| `Queries.TopNOfAll` | main.py:61 | `n >= len` gives the whole sorted list |
| `Queries.TopNIsStable` | main.py:61 | among vacancies with equal salary, top-N keeps a prefix of them in input order |
| `Ranking.SortDesc` | main.py:61 | the stable descending sort is a permutation and is sorted by the key |
| `Ranking.Top` | main.py:61 | `sorted(s, reverse=True)[:n]` has the length of Python's slice, is sorted, is a prefix of the full sort, and holds no more of any element than `s`; nothing dropped has a larger key than anything kept |
| `Ranking.InsertIsStable` | main.py:61 | inserting one element after all elements with at least its key appends it to its key's class and leaves the other classes alone |
| `JsonStore.HasLink` | file_handlers/file_handler.py:34 | `any(v["link"] == link for v in vs)`: some record carries the link |
| `JsonStore.WithAdded` | file_handlers/file_handler.py:33-36 | the list `add_vacancy` saves: the link is present afterwards, the list is unchanged exactly when the link was already stored, and otherwise the record is appended at the end |
| `JsonStore.AddedIsPresent` | file_handlers/file_handler.py:33-36 | after an add the link is present; adding again changes nothing; the old list is a prefix, grown by at most one |
| `JsonStore.AddedKeepsLinksDistinct` | file_handlers/file_handler.py:33-36 | if links were pairwise distinct before an add, they still are |
| `JsonStore.WithoutLink` | file_handlers/file_handler.py:66 | keeps exactly the records whose link differs, each as often as it occurs, as a subsequence; no record with the link is left |
| `JsonStore.DeleteIdempotent` | file_handlers/file_handler.py:66 | deleting a link twice is the same as once |
| `JsonStore.DeleteAbsent` | file_handlers/file_handler.py:66 | deleting a link that is not stored changes nothing |
| `JsonStore.JsonFileHandler.constructor` | file_handlers/file_handler.py:17-24 | the handler starts with the given file contents |
| `JsonStore.JsonFileHandler.Contents` | file_handlers/file_handler.py:46-56 | a missing or invalid file reads as the empty list |
| `JsonStore.JsonFileHandler.GetVacancies` | file_handlers/file_handler.py:39-56 | returns the stored array, or `[]` when the file is missing or not valid JSON |
| `JsonStore.JsonFileHandler.SaveVacancies` | file_handlers/file_handler.py:70-81 | a successful write replaces the contents and makes the file readable; a failed write is caught and changes nothing |
| `JsonStore.JsonFileHandler.AddVacancy` | file_handlers/file_handler.py:26-37 | a known link, or a failed write, leaves the store unchanged; otherwise the record goes after the readable contents; an unreadable file becomes just the new record; distinct links stay distinct |
| `JsonStore.JsonFileHandler.DeleteVacancy` | file_handlers/file_handler.py:58-68 | after a successful write, the store is the old readable contents without the records with the argument's link, and no record with that link is left; a failed write changes nothing |
| `LineLog.Decode` | src/file_handlers/file_handler.py:17-20 | reading succeeds iff every line is valid JSON, giving one record per line in file order; a bad line raises a decode error |
| `LineLog.DecodeAppend` | src/file_handlers/file_handler.py:9-13 | appending a line adds its record at the end of what reads back, or leaves a failing read failing |
| `LineLog.AddTwiceKeepsBoth` | src/file_handlers/file_handler.py:9-13 | there is no duplicate check: adding the same record twice reads back twice |
| `LineLog.JsonLinesHandler.constructor` | src/file_handlers/file_handler.py:6-7 | the handler starts with the given lines and flags; a file that is absent has no lines |
| `LineLog.JsonLinesHandler.AddVacancy` | src/file_handlers/file_handler.py:9-15 | a successful write appends exactly one line and creates the file; whether the file can be read is never changed; the decoded lines grow by the record at the end; a failed write is caught and changes nothing |
| `LineLog.JsonLinesHandler.GetVacancies` | src/file_handlers/file_handler.py:17-23 | a missing file, or one that exists but cannot be opened for reading, gives `[]`; otherwise one record per line, or a decode error iff some line is bad |

## Left out

- HTTP access to the search API (api/hh_api.py, src/api/hh_api.py): network I/O, with pagination driven by the responses.
- The abstract handler and API interfaces: they declare signatures only.
- The interactive menu loop of main.py, its `input`/`print` calls, the `int(input(...))` parsing and all logging: user I/O. Only the three query expressions are modelled.
- `show_statistics` in main.py: a floating-point average, printed.
- `__repr__` of the structured record: display only.
- Unicode: digits are ASCII `0`-`9`. Lower-casing covers the ASCII capitals and the Cyrillic capitals U+0400-U+052F only; Python's `\d`, `isdigit` and `lower` cover all of Unicode.
- Values outside `None`/`bool`/`int`/`str` and one level of mapping (floats, lists, nested mappings) are not modelled.
- Vacancy.FromDict: requires title, link and description to be scalars, because Python's `str()` of a mapping is not modelled.
- Vacancy.ValidateString: takes scalars only, for the same reason.
- JsonStore.JsonFileHandler.AddVacancy: requires the argument to have a `link` key. Without one the source raises `KeyError` if the store is non-empty; if the store is empty, it appends and saves the record.
- JsonStore.JsonFileHandler.AddVacancy: a record added under a new link but without a `title` key makes the logging line raise `KeyError` after the write has happened; the model ends at the write and does not return that error.
- JsonStore.JsonFileHandler.DeleteVacancy: requires the argument to have a `link` key. The `KeyError` that logging raises after the rewrite, when `title` is missing, is not modelled.
- JsonStore.JsonFileHandler.Valid: every stored record must carry a `link` key. In the source a linkless record makes `add_vacancy` and `delete_vacancy` raise `KeyError`.
- JsonStore.LinkIs: links are compared with structural equality. Python's `==` would also equate `1` with `True`.
- JsonStore.JsonFileHandler.GetVacancies: `readable` covers only a missing file and invalid JSON. Other read errors (permissions, a directory) raise in the source and are not modelled. Valid JSON that is not a list is not modelled either.
- JSON encoding and decoding are abstracted. The array store's contents are a sequence of records. The line log's lines are `Encoded(record)` or `Garbled`, and its records are the string-keyed mappings of scalars that JSON carries unchanged; values `json` would change (tuples, non-string keys) are not modelled.
- Partial writes (a write that fails after `open(..., "w")` truncates the file, or a half-written log line) are not modelled: a failed write leaves the file unchanged.
- The file name given to each handler is not modelled: one handler object stands for one file.
