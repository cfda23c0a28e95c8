# SPLAB bug tracker — a verified model of its save rules and request handlers

SPLAB is a small Django bug tracker. External reporters submit bugs with
media, code and website evidence. Fixers submit fixes, and each fix updates
its bug's status. A "hall of researchers" lists reporters and fixers. A staff
dashboard counts bugs and fixes in a time window.

This project models two parts of `splabapp` in Dafny:

- **The save rules of the records** (`models.py`).
  - A bug gets a number `SPLB` + 1000..9999 and a fix a number `SPLF` + 1000..9999.
  - Each number is drawn once among the numbers no record of its kind holds, and is never changed afterwards.
  - A fix copies its bug's category on every save.
  - The choice lists and the field defaults are modelled too.
- **The request handlers with logic of their own** (`views.py`).
  - `researcher_list` and `researcher_detail`.
  - `combined_create`: one bug, plus one row per uploaded file and per non-blank website line.
  - `successful_fixed_create`, and the pre-filled bug its GET shows.
  - `successful_fixed_list`.
  - `dashboard`.
  - The ordering of `bug_list`.

The database is the class `Models.Store`, with one sequence per table:

- Records are datatypes with an integer primary key `pk` and integer timestamps in seconds.
- A save writes by primary key. It updates the row with the same key, or appends.
- `Store.Valid()` is the invariant every save keeps:
  - primary keys are unique;
  - record numbers are unique (`unique=True`);
  - every stored record has a number.

Modules:

- `Wrappers`: `Option` and `Result`.
- `Seqs`: the list operations the handlers are made of:
  - `Filter` for a comprehension with an `if`;
  - `Map`;
  - `Lookup` for a primary-key `get`;
  - `Put` for a save;
  - `NextKey` for a new row id.
- `Text`: the Python string operations used:
  - `lower`, which handles ASCII letters only;
  - `strip` and `isspace`;
  - `splitlines`;
  - `in` on strings;
  - string `<`, and the sorted insertion behind `sorted(set(...))`.
- `Identifiers`: the record-number format, reading a number back, and the set of free suffixes.
- `Models`: the choices, the records, `Store`, `Bug.save` and `SuccessfulFixed.save`.
- `Researchers`: `researcher_list` and `researcher_detail`.
- `Dashboard`: `dashboard` and `bug_list`.
- `Submission`: `combined_create`.
- `FixViews`: `successful_fixed_list` and `successful_fixed_create`.

Operations that change the database are methods on, or taking, a `Store`. Each
loop of the source over a list is a loop of the model:

- the two loops that collect researcher rows;
- the numbering loop;
- the media, code-file and website loops.

The `while True` retry loops of the two `save` methods are not loops here.
Each is a single nondeterministic choice (`:|`) of a free suffix. That
choice is the retry loop's eventual success, and `Identifiers.FreeWhileRoomLeft`
says when such a suffix exists. Computations without loops are functions.

## Model

| member | source | states |
|---|---|---|
| Models.ParseSeverity | splabapp/models.py:7-12 | the severity column accepts exactly low, medium, high, critical, each naming the choice whose stored value it is |
| Models.ParseCategory | splabapp/models.py:13-19 | the category column accepts exactly ui, backend, performance, security, other, each naming its choice |
| Models.ParseStatus | splabapp/models.py:20-25 | the status column accepts exactly open, in_progress, resolved, closed, each naming its choice |
| Models.ChoicesRoundTrip | splabapp/models.py:7-25 | every choice's stored value is read back as that choice; each list holds every choice; no two categories share a value |
| Models.NewBug | splabapp/models.py:29-30 | a bug built without category or status gets category "other" and status "open", with no number and no reporter name or email |
| Models.NewFix | splabapp/models.py:76 | a fix is built with category "other" and no number |
| Models.Store.SaveBug | splabapp/models.py:42-49 | a blank number becomes SPLB + a suffix in 1000..9999 that no stored bug used; a number already set is kept; only the number changes before the write; the write updates or appends by key; duplicate numbers are refused; the other tables are unchanged; the store invariant is kept |
| Models.Store.SaveFix | splabapp/models.py:81-90 | the saved fix carries its stored bug's category (its own if the bug is absent); a blank number becomes SPLF + a suffix no stored fix used; an existing number is kept; nothing else changes before the write; the store invariant is kept |
| Models.ResaveBugChangesNothing | splabapp/models.py:42-49 | saving a stored bug again is accepted and leaves the bug table as it was, so numbering happens once |
| Models.ResaveFixChangesNothing | splabapp/models.py:81-90 | saving again a stored fix whose category already mirrors its bug's is accepted and leaves the fix table as it was |
| Identifiers.Tag | splabapp/models.py:45 | a record number is the prefix followed by four characters |
| Identifiers.TagFitsColumn | splabapp/models.py:35 | with a four-letter prefix every record number fits `max_length=8` |
| Identifiers.ParseTag | splabapp/models.py:45 | a string is read back as suffix n only if n is in 1000..9999 and the string is exactly prefix + n |
| Identifiers.TagRoundTrip | splabapp/models.py:45 | formatting a suffix and reading it back gives the suffix, so distinct suffixes give distinct numbers |
| Identifiers.FreeMeansUnused | splabapp/models.py:46-47 | a free suffix is in range and its number is held by no stored record |
| Identifiers.ClaimedSize | splabapp/models.py:46 | the stored records claim at most as many suffixes as there are records |
| Identifiers.FreeWhileRoomLeft | splabapp/models.py:44-48 | while fewer than 9000 records exist, a free suffix remains, so the retry loop ends |
| Seqs.Filter | splabapp/views.py:240 | a comprehension with an `if` keeps only elements that pass, keeps every element that passes, and never grows |
| Seqs.FilterConcat | splabapp/views.py:239-242 | filtering a concatenation filters each part, so a filter keeps relative order |
| Seqs.FilterPartition | splabapp/views.py:150-153 | a predicate and its negation split a list into two parts holding every element exactly once |
| Seqs.Lookup | splabapp/views.py:266 | a primary-key get finds a stored row with that key, or reports that no row has it |
| Seqs.PutLookup | splabapp/models.py:49 | after a save, looking up the saved key finds the saved record, other keys find what they found before, and keys stay unique |
| Seqs.PutStored | splabapp/models.py:49 | writing back a stored row unchanged leaves the table as it was |
| Seqs.NextKey | splabapp/views.py:97 | a newly created row's key is at least 1 and above every stored key |
| Text.LowerConcat | splabapp/views.py:245 | lowering a concatenation lowers each part |
| Text.LowerIdempotent | splabapp/views.py:205 | lowering an already lowered query changes nothing |
| Text.StripStartSpec | splabapp/views.py:119 | `lstrip` returns a suffix, removes only whitespace, and stops at a character that is not whitespace |
| Text.StripEndSpec | splabapp/views.py:119 | `rstrip` returns a prefix, removes only whitespace, and stops at a character that is not whitespace |
| Text.StripSlice | splabapp/views.py:119 | `strip` returns a slice of its input with only whitespace on either side of it |
| Text.StripEnds | splabapp/views.py:119 | a non-empty stripped string neither starts nor ends with whitespace |
| Text.StripBlank | splabapp/views.py:119-120 | `strip` leaves nothing exactly when every character is whitespace |
| Text.StripIdempotent | splabapp/views.py:119 | stripping twice is stripping once |
| Text.LineEndSpec | splabapp/views.py:118 | the first line holds no line break, and a break follows it unless the text ends |
| Text.SplitLinesHaveNoBreaks | splabapp/views.py:118 | no line that `splitlines` returns holds a line break |
| Text.SplitJoinLines | splabapp/views.py:118 | joining lines without breaks, each followed by "\n", and splitting again gives the same lines |
| Text.JoinSplitLines | splabapp/views.py:118 | for text whose only break is "\n", splitting and joining gives the text back, with a final "\n" added when it had none |
| Text.LessIrreflexive | splabapp/views.py:250 | no string sorts before itself |
| Text.LessTransitive | splabapp/views.py:250 | string order is transitive |
| Text.LessTotal | splabapp/views.py:250 | any two different strings are ordered one way or the other |
| Text.StrictlySortedDistinct | splabapp/views.py:250 | a strictly sorted list has no duplicates |
| Text.InsertSorted | splabapp/views.py:250 | adding a string to a strictly sorted list keeps it strictly sorted, adds that string and loses nothing |
| Researchers.CollectEntries | splabapp/views.py:208-237 | the two loops build one Reporter row per bug in bug order, then one Fixer row per fix in fix order |
| Researchers.CollectedShape | splabapp/views.py:208-237 | before filtering there are |bugs| + |fixes| rows; reporter rows carry the bug key and an empty fix number; fixer rows carry the fix key and the fix's number or '' |
| Researchers.FiltersKeepOrder | splabapp/views.py:239-245 | each of the three filters keeps the relative order of the rows it retains |
| Researchers.RoleFilterSplits | splabapp/views.py:239-240 | any spelling of "reporter" keeps exactly the bug rows; any spelling of "fixer" keeps exactly the fix rows; any other non-empty role keeps none |
| Researchers.ReporterCount | splabapp/views.py:239-240 | filtering on role "reporter" leaves exactly as many rows as there are bugs |
| Researchers.SearchSurvivors | splabapp/views.py:244-245 | a row survives a non-empty search exactly when the stripped, lowered query occurs in its lowered fields run together; a query of whitespace only keeps every row |
| Researchers.HaystackLowersJoinedFields | splabapp/views.py:245 | lowering each field and then joining them gives the same text as joining the fields and lowering the result |
| Researchers.PartsOccur | splabapp/views.py:245 | each of the seven fields run together occurs in the joined text |
| Researchers.SearchFindsEachField | splabapp/views.py:244-245 | a query equal to any one lowered field of a row finds that row |
| Researchers.QueryIsLowerCase | splabapp/views.py:205 | the echoed search query is already lower case |
| Researchers.SearchSpansFields | splabapp/views.py:245 | a query can match across the boundary of two fields |
| Researchers.AssignSerials | splabapp/views.py:247-248 | the numbering loop gives row k the serial k + 1 and changes nothing else |
| Researchers.NumberedInOrder | splabapp/views.py:247-248 | after numbering the serials are 1..N in list order, and every other field is as before |
| Researchers.BugTypes | splabapp/views.py:250 | the bug types offered are strictly sorted and hold exactly the non-empty bug types of the listed rows |
| Researchers.ResearcherList | splabapp/views.py:201-259 | the page lists the filtered rows, numbered, with their bug types, the two role labels, the filters echoed, and the query stripped and lowered |
| Researchers.ResearcherDetail | splabapp/views.py:261-296 | the role is compared case-insensitively; "reporter" shows the bug with key id and an empty fix number, or "Bug not found"; "fixer" shows the fix with its number and its bug, or "Fix not found"; any other role gives "Invalid category" |
| Researchers.DetailMatchesList | splabapp/views.py:261-296 | following a listed row to its detail page finds the same person, bug type, role and fix number |
| Dashboard.DashboardCounts | splabapp/views.py:12-39 | the counts are at most the totals, and the echoed filter is the parameter or '' |
| Dashboard.UnfilteredCountsAll | splabapp/views.py:18-32 | no filter, or a value other than day, week, month or year, counts every bug and every fix |
| Dashboard.DayCountsToday | splabapp/views.py:18-19 | under "day" a bug is counted exactly when it was created on today's date |
| Dashboard.RollingWindowsCount | splabapp/views.py:21-32 | under "week", "month" and "year" a bug or fix is counted exactly when its timestamp is at most 7, 30 or 365 days before now |
| Dashboard.SameDayIsRecent | splabapp/views.py:19-20 | a record from today is less than a day old |
| Dashboard.WindowsNest | splabapp/views.py:18-32 | a record in today's window is in the last week's, which is in the last month's, which is in the last year's |
| Dashboard.CountsGrowWithWindow | splabapp/views.py:18-34 | the counts for day, week, month and year never decrease, and none exceeds the total |
| Dashboard.InsertPermutes | splabapp/views.py:44 | inserting a bug into the ordered list adds exactly that bug |
| Dashboard.InsertKeepsOrder | splabapp/views.py:44 | inserting a bug into a newest-first list keeps it newest first |
| Dashboard.BugList | splabapp/views.py:44 | the bug list holds the stored bugs, each once, newest first |
| FixViews.FilteredList | splabapp/views.py:143-166 | the page echoes the three parameters, shows every stored fix and the category list, and never shows more bugs than are stored |
| FixViews.SuccessfulFixedList | splabapp/views.py:150-155 | as written, the view fails exactly when a status filter and a non-empty search are both given; otherwise it shows the filtered list |
| FixViews.ListShowsExactlyMatches | splabapp/views.py:148-155 | a bug is shown exactly when it is stored, has the chosen category, has (or lacks) a fix as the status asks, and its title contains the search text ignoring case |
| FixViews.FilteredListKeepsOrder | splabapp/views.py:148-155 | every filter of the page keeps stored order: the bugs shown for two consecutive parts of the table are those of each part, in turn |
| FixViews.FixedAndNotFixedPartition | splabapp/views.py:150-153 | "fixed" and "not_fixed" split the bugs of a category in two: together they hold each of its bugs exactly once |
| FixViews.NoFilterShowsAll | splabapp/views.py:147 | with no parameter every stored bug is shown, in stored order |
| FixViews.UnknownCategoryShowsNothing | splabapp/views.py:148-149 | a category that names no choice shows no bug |
| FixViews.FormFix | splabapp/views.py:177-187 | the fix built from the form carries the form's bug, description, name, email, phone and evidence, the submission time, no number and the default category |
| FixViews.SuccessfulFixedCreate | splabapp/views.py:172-190 | a valid form for a stored bug writes the submitted status into that bug, then appends one fix; the fix carries the bug's category, the form's fields and a fresh SPLF number; otherwise nothing changes; the other tables are unchanged |
| FixViews.FixPrefill | splabapp/views.py:191-198 | a GET shows the stored bug the `bug` parameter names, or nothing (and no error) when it names none |
| Submission.FormBug | splabapp/views.py:97-108 | the created bug carries every field of the form, a new key and the creation time, with no number yet |
| Submission.Attachments | splabapp/views.py:110-114 | one attachment row per uploaded file, in upload order, each pointing at the new bug |
| Submission.Websites | splabapp/views.py:121 | one website row per url, in order, each pointing at the new bug |
| Submission.UrlsAreStrippedLines | splabapp/views.py:118-121 | the website loop keeps exactly the stripped lines that are not empty, in order |
| Submission.StrippedLine | splabapp/views.py:119 | a stripped line cannot be stripped further and stays on one line |
| Submission.StrippedNonBlankCount | splabapp/views.py:119-120 | there are as many non-empty stripped lines as lines that are not all whitespace |
| Submission.UrlsAreClean | splabapp/views.py:116-121 | every stored url is non-empty, already stripped and on one line |
| Submission.OneUrlPerNonBlankLine | splabapp/views.py:116-121 | there is exactly one url per line of the text that is not blank |
| Submission.NonBlankLinesKept | splabapp/views.py:116-121 | every line that is not blank gives its stripped self as a url |
| Submission.TrimmedLine | splabapp/views.py:119 | a non-empty string with no whitespace at either end is its own strip |
| Submission.TwoLinesAndABlankLine | splabapp/views.py:118 | two lines and an empty one, each ended by "\n", split into those three lines |
| Submission.UrlsOfTwoLinesAndABlankLine | splabapp/views.py:118-121 | from two trimmed lines and a blank one the loop takes the two lines |
| Submission.TwoLines | splabapp/views.py:118 | two lines without breaks, joined by "\n", split into those two lines |
| Submission.TwoUrlsOnTwoLines | splabapp/views.py:116-121 | the stripped form text of two urls on their own lines makes exactly those two website rows |
| Submission.TwoUrlsAndABlankLine | splabapp/views.py:116-121 | the url extraction drops a trailing blank line: two urls and a blank line give exactly those two urls |
| Submission.AddWebsites | splabapp/views.py:118-121 | the loop appends one website row per line whose stripped text is not empty, holding the stripped text, and changes no other table |
| Submission.AddMedia | splabapp/views.py:110-111 | the loop appends one media row per media file, in order, and changes no other table |
| Submission.AddCodeFiles | splabapp/views.py:113-114 | the loop appends one code-file row per code file, in order, and changes no other table |
| Submission.CombinedCreate | splabapp/views.py:93-126 | a valid form appends exactly one bug, under a key above every stored key, with the form's fields and a fresh SPLB number, then its media, code and website rows; an invalid form changes nothing; fixes are never touched |

## Left out

- Templates, `messages.success`, `redirect` and `staff_member_required` are left out. They are presentation and access control, with no logic to state.
- Form validation in `splabapp/forms.py` runs inside Django. The verdict of `form.is_valid()` is a boolean parameter, and the cleaned data arrive already typed: the choices are enums and strings are already stripped.
- `ContactMessage` and `contact`, `bug_detail`, `successful_fixed_detail` and the static pages are left out. Each is a plain save or lookup.
- `log_list`, `log_detail`, `tool_list`, `tool_detail`, `mediafile_list` and `mediafile_detail` are left out. They name models that do not exist.
- `splabapp/admin.py` and `splabapp/urls.py` are declarative registration and routing.
- The ORM is replaced by in-memory sequences:
  - querysets and `select_related` are left out;
  - cascade deletes are left out;
  - the database's unique index becomes an explicit check in the save methods.
- Two concurrent saves could draw the same number. That race is left out, because the model has no concurrency.
- Uploaded files are opaque tokens, and storing them is left out.
- `random.randint` becomes a nondeterministic choice among the free suffixes.
- Models.Store.SaveBug: requires that a free SPLB suffix remains when the number is blank. With all 9000 numbers in use, the source's retry loop never ends. `Identifiers.FreeWhileRoomLeft` gives the condition under which a suffix remains.
- Models.Store.SaveFix: the same requirement, for SPLF numbers.
- Models.Store.SaveFix: when the fix's bug is not stored, the model keeps the fix's own category. Django would raise on the missing row instead.
- Text.Lower: lowers ASCII letters only, so Python's full Unicode case mapping is not modelled. The same holds for the case-insensitive comparisons built on it (`icontains`, the role, bug-type and search filters).
- Dashboard.Day: counts calendar days of UTC over integer seconds. Time zones are not modelled.
- Dashboard.BugList: states the order and the contents only. Among bugs created at the same second, the database's order is not modelled.
- FixViews.FixPrefill: takes the `bug` parameter as an integer or absent. A non-numeric value makes Django raise, and that is not modelled.
- FixViews.SuccessfulFixedCreate: a bug key that names no stored bug yields no fix. In the source the form rejects such a key.
- Submission.CombinedCreate: the new key is one more than the largest stored key. A database that never reuses a deleted key is not modelled.

## Findings

| source | as written | input that shows it | evidently intended | confidence | as-written member | corrected member |
|---|---|---|---|---|---|---|
| splabapp/views.py:150-155 | after the status filter `bugs` is a plain list, and `bugs.filter(title__icontains=search)` raises AttributeError | `status=fixed&search=a` (also `status=not_fixed` with any non-empty search) | the title search is applied on top of the category and status filters, as described for the fixes page | not executed | FixViews.SuccessfulFixedList | FixViews.FilteredList |

`FixViews.SuccessfulFixedList` fails exactly when both parameters are given.
`FixViews.FilteredList` is the corrected page, and
`FixViews.ListShowsExactlyMatches` proves that it shows exactly the bugs
passing every requested filter.
