# AppGenie data cleaning and deduplication, modelled in Dafny

This project models two parts of AppGenie.

**The CSV deduplication script (`dedup.py`), module `Dedup`.** The model covers:

- the field normaliser `preProcess`;
- the record index `readData` builds from the rows of a CSV file;
- the field definitions `defineFields` hands to the record-linkage library;
- the branch structure of `setup`. This includes whether a saved model is loaded or a new one is trained, the order the library is driven in, and the fixed match threshold;
- the cluster-membership map `writeResults` builds from the clusters.

**The data-frame cleaner (`dataprocessor.py`), module `DataProcessor`.** The model covers the class `DataFrameCleaner`. It holds one data frame and replaces it step by step:

- re-indexing on a column;
- dropping duplicate rows;
- dropping incomplete rows;
- lower-casing, stripping and removing special characters in one column;
- the combined text clean-up of a column;
- returning the frame.

Three helper modules support these:

- `PyText` holds the Python `str` primitives the cleaners use:
  - the `str.isspace` character class;
  - `str.strip` with and without an argument;
  - `str.lower` on the ASCII and Latin-1 letters.
- `Seqs` holds subsequences, `Filter` and distinctness.
- `Wrappers` holds `Option`, for Python's `None`, and `Result`, for an operation that raises.

How the model is built:

- `readData`, `defineFields` and `writeResults` loop in Python. In the model they are methods with loops.
  - `readData` and `writeResults` are each proved equal to a specification function (`IndexRecords`, `Memberships`), and the properties are proved about that function.
  - `DefineFields` states its result directly in terms of the field names it is given.
- `DataFrameCleaner` is a class with one field, `dataframe`, which holds a frame as a value. Each method assigns that field the frame the operation produces. In pandas, `set_index`, `drop_duplicates` and `dropna` return new frames, but the column methods assign one column of the held frame in place. The model does not capture that difference (see "## Left out").
- A method that asserts a column exists returns `ok`. `ok` is false exactly when the Python `AssertionError` would be raised, and the frame is then unchanged.

`preProcess` is not idempotent: on some inputs a second pass changes the result again. Two orderings of its steps cause this:

- It collapses runs of spaces *before* it turns newlines into spaces, so `"a \n b"` becomes `"a   b"`.
- It strips double quotes *before* single quotes, so `'"x"'` becomes `"x"`.

A second pass gives `"a b"` and `x` respectively (`Dedup.NewlineLeavesDoubleSpace`, `Dedup.QuoteOrderLeavesQuotes`). `Dedup.PreProcessStable` states when a second pass does change nothing.

## Model

| member | source | states |
|---|---|---|
| Dedup.CollapseSpaces | dedup.py:36 | after `re.sub("  +", " ", ...)` no two adjacent characters are both spaces; the result is a subsequence of the input with exactly the input's characters other than U+0020, in order, and the same first character. `Dedup.CollapseSpacesShrink` states how a run shrinks |
| Dedup.CollapseSpacesShrink | dedup.py:36 | two spaces anywhere collapse exactly as one space would. With no double space in the result and `CollapseSpacesNoop`, this means each run of two or more spaces leaves exactly one space |
| Dedup.CollapseSpacesNoop | dedup.py:36 | text without a run of spaces is left unchanged |
| Dedup.CollapseSpacesKeeps | dedup.py:36 | collapsing removes characters and introduces none: any property of every input character holds of every output character |
| Dedup.ReplaceNewlines | dedup.py:37 | the length is kept, each line feed becomes a space, every other character stays where it was, and no line feed is left |
| PyText.StripChars | dedup.py:38 | `str.strip(chars)` removes a prefix and a suffix made only of stripped characters and returns the middle slice between them, whose ends are not stripped characters |
| Dedup.Unquote | dedup.py:36-38 | after collapsing, newline replacement and the three strips, neither end of the text is a single quote |
| Dedup.Normalise | dedup.py:36-38 | the normalised text has no whitespace at either end, no line feed and no capital letter |
| Dedup.PreProcess | dedup.py:34-41 | the result is `None` or a non-empty string whose ends are not whitespace, with no line feed and no capital letter |
| Dedup.NormaliseShape | dedup.py:35-40 | the normalised text is trimmed and has no line feed or capital; ASCII input gives ASCII output; whitespace-only input gives the empty string |
| Dedup.WhitespaceOnlyIsNone | dedup.py:38-40 | text that is whitespace only after transliteration becomes `None` |
| Dedup.AsciiWhitespaceIsNone | dedup.py:35-40 | ASCII whitespace, including the empty string, becomes `None` for any transliterator that keeps ASCII unchanged |
| Dedup.PreProcessAsciiAgrees | dedup.py:35 | on ASCII text, any two transliterators that keep ASCII unchanged give the same `preProcess` result |
| Dedup.NormaliseFixpoint | dedup.py:36-38 | text no step changes is returned unchanged: no space run, no line feed, no capital, and no whitespace or quote at the ends |
| Dedup.PreProcessStable | dedup.py:34-41 | a preprocessed value without a double space and without a quote at either end is returned unchanged by a second `preProcess` |
| Dedup.NewlineLeavesDoubleSpace | dedup.py:36-38 | `"a \n b"` preprocesses to `"a   b"`, which preprocesses to `"a b"`: spaces are collapsed before newlines are replaced, so the normaliser is not idempotent |
| Dedup.QuoteOrderLeavesQuotes | dedup.py:38 | `'"x"'` preprocesses to `"x"`, which preprocesses to `x`: double quotes are stripped before single quotes |
| Dedup.CleanRow | dedup.py:53 | the cleaned row has the same columns as the raw row, and each value is the raw value cleaned |
| Dedup.IndexRecords | dedup.py:52-55 | the index succeeds exactly when every row has a `listing_id`; its keys are exactly the raw `listing_id` values; on failure it names the first row without one |
| Dedup.IndexRows | dedup.py:49-56 | the loop over the rows returns exactly the index `IndexRecords` defines, including the failure at the first row without a `listing_id` |
| Dedup.ReadData | dedup.py:44-56 | `readData` returns the index of the rows cleaned with `preProcess` |
| Dedup.ReadFailsAt | dedup.py:54 | reading raises at the first row without a `listing_id` when all rows before it have one |
| Dedup.IndexRecordsLastWins | dedup.py:54-55 | the record stored under an id is the last row with that id, cleaned |
| Dedup.ReadRecordsLastWins | dedup.py:52-55 | the record for an id has exactly the columns of the last row with that id, each value that row's raw value preprocessed; the id itself is the raw value |
| Dedup.DefineFields | dedup.py:59-63 | one string definition per field name, in order, each with `has_missing` set |
| Dedup.SetupActions | dedup.py:77-100 | the last step is the match at 0.5 and no earlier step matches; the static model is loaded exactly when the settings file exists, and then nothing is learnt or written; otherwise training is prepared (with the labelled examples when the training file exists), then labelling, training, writing the training file and writing the settings happen in that order before the match. A run without settings is exactly creating the model, those five steps and the match; a run with settings is exactly the load and the match |
| Dedup.Setup | dedup.py:66-101 | a missing input file fails the assertion; otherwise `setup` fails exactly when `readData` fails, with its error, and else returns the records `readData` built and the steps of `SetupActions` |
| Dedup.SecondRunIsStatic | dedup.py:77-98 | after a run, the settings file exists, so a second run on the same input loads the static model and learns nothing |
| Dedup.ZipLength | dedup.py:107 | `zip` yields as many pairs as the shorter of records and scores |
| Dedup.AssignPairs | dedup.py:107-111 | the inner loop adds exactly the record ids it pairs with a score |
| Dedup.Memberships | dedup.py:104-111 | the keys of the membership map are exactly the record ids `zip` yields over all clusters |
| Dedup.WriteResults | dedup.py:104-111 | the nested loops build exactly the map `Memberships` defines |
| Dedup.AssignPairsLastWins | dedup.py:107-111 | within one cluster, the last write to a record id is the one that remains |
| Dedup.AssignPairsElsewhere | dedup.py:107-111 | writes for one cluster leave the entries of other record ids unchanged |
| Dedup.MembershipsLastWins | dedup.py:106-111 | a record maps to the position of the last cluster pairing it with a score, and to that score |
| Dedup.ZipDropsUnscored | dedup.py:107 | a record without a score is not written |
| Dedup.LaterClusterOverwrites | dedup.py:106-111 | a record in two clusters keeps the entry of the later cluster |
| DataProcessor.RemoveLabel | dataprocessor.py:37 | the column labels without the index column, in order; distinct labels stay distinct |
| DataProcessor.SetIndex | dataprocessor.py:37 | `set_index` names the index after the column, removes the column from the columns, keeps the rows in order, makes each row's label its cell in that column, and keeps a well-formed frame well formed |
| PyText.LowerChar | dataprocessor.py:94 | the model's lower-casing of one character (ASCII and Latin-1 capitals only): `A` to `Z` become `a` to `z`, U+00C0 to U+00D6 become `à` to `ö` and U+00D8 to U+00DE become `ø` to `þ`, each capital its own small letter; every other character is unchanged; no capital results, and ASCII and the letters-and-digits class are kept |
| PyText.Lower | dataprocessor.py:94 | the model's lower-casing (ASCII and Latin-1 capitals only) keeps the length and lower-cases each character on its own as `PyText.LowerChar` states, so it leaves no ASCII or Latin-1 capital and keeps every position's membership of `[a-zA-Z0-9]` |
| PyText.LStrip | dedup.py:38 | `str.lstrip(chars)` removes the longest prefix of stripped characters: the result is a suffix of the input, everything before it is stripped, and it does not start with a stripped character |
| PyText.RStrip | dedup.py:38 | `str.rstrip(chars)` removes the longest suffix of stripped characters: the result is a prefix of the input, everything after it is stripped, and it does not end with a stripped character |
| PyText.Strip | dataprocessor.py:103 | `str.strip()` returns the middle slice that starts after the leading whitespace and is followed only by whitespace; neither end of it is whitespace. Whitespace is `PyText.IsSpace`, the 29 characters of Python's `str.isspace`, which also decides the strip at `dedup.py:38` |
| DataProcessor.DataFrameCleaner.constructor | dataprocessor.py:20-30 | the cleaner holds the frame it was given |
| DataProcessor.DataFrameCleaner.ChangeIndex | dataprocessor.py:32-38 | succeeds exactly when the column exists, and then re-indexes on it; otherwise the frame is unchanged |
| DataProcessor.DropDuplicates | dataprocessor.py:42 | the kept rows are a subsequence of the rows, and no two of them have equal cells |
| DataProcessor.DropDuplicatesKeepsFirst | dataprocessor.py:42 | the first row with given cells is kept |
| DataProcessor.DropDuplicatesCovers | dataprocessor.py:42 | the cells of every row are still present after dropping duplicates |
| DataProcessor.DropDuplicatesNoop | dataprocessor.py:42 | rows whose cells are pairwise different are all kept |
| DataProcessor.DropDuplicatesIdempotent | dataprocessor.py:42 | dropping duplicates twice is dropping them once |
| DataProcessor.DropDuplicatesIgnoresLabels | dataprocessor.py:42 | which cells survive depends only on the cells, not on the index labels |
| DataProcessor.LabelsDoNotSeparate | dataprocessor.py:42 | two rows with equal cells under different labels are duplicates, and the first is kept |
| DataProcessor.DataFrameCleaner.RemoveDuplicates | dataprocessor.py:40-43 | a frame without columns, which pandas treats as empty, is left unchanged; otherwise the index name and columns stay and the rows are replaced by `DropDuplicates` of them |
| DataProcessor.DropMissing | dataprocessor.py:47 | the kept rows are a subsequence of the rows, every kept row is complete, and every complete row is kept as often as it occurs; an incomplete row never occurs in the result |
| DataProcessor.DropMissingIdempotent | dataprocessor.py:47 | a frame without missing cells is unchanged, and dropping twice is dropping once |
| DataProcessor.DropMissingAppend | dataprocessor.py:47 | rows are judged one by one: dropping on a concatenation is the concatenation of the two results |
| DataProcessor.DataFrameCleaner.RemoveMissingValues | dataprocessor.py:45-48 | the index name and columns stay; the rows are replaced by `DropMissing` of them |
| DataProcessor.MapCell | dataprocessor.py:94 | a missing cell stays missing, and a string cell is mapped |
| DataProcessor.MapRow | dataprocessor.py:94 | a row keeps its label and columns, every other column's cell is unchanged, and the named column's cell is mapped |
| DataProcessor.MapColumn | dataprocessor.py:94 | the index name, columns and number of rows stay, each row is mapped on the named column only, and a well-formed frame stays well formed |
| DataProcessor.MapColumnCompose | dataprocessor.py:123-125 | mapping a column twice is mapping it once with the composition |
| DataProcessor.MapColumnAll | dataprocessor.py:112-114 | every present cell of a mapped column holds a value of the mapping |
| DataProcessor.DataFrameCleaner.MapExistingColumn | dataprocessor.py:91-94 | the shared step of the column methods: succeeds exactly when the column exists, and then replaces that column by the mapping of its cells; otherwise the frame is unchanged |
| DataProcessor.DataFrameCleaner.LowerCaseColumn | dataprocessor.py:88-95 | succeeds exactly when the column exists, and then lower-cases that column only; otherwise the frame is unchanged |
| DataProcessor.DataFrameCleaner.RemoveWhiteSpaces | dataprocessor.py:97-104 | succeeds exactly when the column exists, and then strips that column only; otherwise the frame is unchanged |
| DataProcessor.RemoveSpecial | dataprocessor.py:112-114 | the result holds only `[a-zA-Z0-9]`, is a subsequence of the input, and each ASCII letter or digit occurs in it exactly as often as in the input |
| DataProcessor.RemoveSpecialIdempotent | dataprocessor.py:112-114 | removing special characters twice is removing them once |
| DataProcessor.DataFrameCleaner.RemoveSpecialCharacters | dataprocessor.py:106-115 | succeeds exactly when the column exists, and then removes special characters from that column only, leaving only `[a-zA-Z0-9]` in its cells; otherwise the frame is unchanged |
| DataProcessor.CleanText | dataprocessor.py:123-125 | one cleaned cell holds only lower-case ASCII letters and digits |
| DataProcessor.StripBeforeRemoveSpecial | dataprocessor.py:124-125 | stripping before removing special characters makes no difference |
| DataProcessor.CleanTextIsLowerAlnum | dataprocessor.py:123-125 | cleaning a cell is lower-casing it and removing special characters |
| DataProcessor.CleanTextIdempotent | dataprocessor.py:123-125 | cleaning a cell twice is cleaning it once |
| DataProcessor.CleanColumnIdempotent | dataprocessor.py:117-126 | cleaning a column twice is cleaning it once |
| DataProcessor.DataFrameCleaner.CleanTextColumn | dataprocessor.py:117-126 | succeeds exactly when the column exists, and then the frame is the column lower-cased, stripped and cleaned of special characters, in that order, leaving only `[a-z0-9]` in its cells; otherwise the frame is unchanged |
| DataProcessor.DataFrameCleaner.GetCleanedDataframe | dataprocessor.py:128-131 | returns the held frame, unchanged |

## Left out

- Files, CSV parsing, JSON output, `argparse`, `print` and `logging` are not modelled. A CSV file is given as its sequence of rows, and the existence of the input, settings and training files as booleans (`Dedup.Files`).
- The record-linkage library (`dedupe`) is not modelled: its model objects, blocking, interactive labelling, training, serialisation and clustering. `setup` is modelled as the library steps it asks for, in order, and `writeResults` takes the clusters as input.
- `unidecode` is foreign code. It is the parameter `translit`. Lemmas that need its behaviour require that it keeps ASCII unchanged and returns ASCII.
- Confidence scores are floats in the source. They are an opaque type parameter `S`, since they are only stored.
- PyText.LowerChar, PyText.Lower: Python's `str.lower` covers all of Unicode, and these cover only the ASCII and Latin-1 capitals. In Python, lower-casing can also lengthen a string (U+0130 becomes two characters). It can also turn a character that is not a letter or digit of `[a-zA-Z0-9]` into one (U+212A becomes `k`). So the length and class clauses of `PyText.Lower` hold for the model, not for Python.
- Dedup.PreProcess: Python's `str.lower` lower-cases every Unicode letter, but `PyText.Lower` lower-cases only the ASCII and Latin-1 capitals. This is exact on the ASCII text `unidecode` returns.
- DataProcessor.DataFrameCleaner.LowerCaseColumn, DataProcessor.CleanText, DataProcessor.DataFrameCleaner.CleanTextColumn: `Series.str.lower()` applies Python's full-Unicode `str.lower` to each cell, but `PyText.Lower` lower-cases only the ASCII and Latin-1 capitals. So the model leaves `"Ω"` as it is where Python gives `"ω"`. It also misses the capitals whose lower case is an ASCII letter: the Kelvin sign U+212A becomes `k` in Python, but the model's `CleanText` drops it, and U+0130 becomes `i` plus a combining dot, of which `clean_text_column` keeps the `i`. Nor does the model capture that `str.lower` can lengthen a string.
- Dedup.PreProcess: the source accepts `None` only by crashing in `unidecode`. The model takes strings only, so a short row of `csv.DictReader` (a `None` value) is not modelled. Nor is a long row: `csv.DictReader` puts its extra fields, as a list, under the key `None`, and `preProcess` then fails on that list. `Dedup.Row` maps column names to strings, so it can show neither case.
- Data frame cells are strings or missing. Numbers, other dtypes and pandas' conversion of non-string cells to NaN by `.str` methods are not modelled. Nor are duplicate column labels.
- DataProcessor.DataFrameCleaner.constructor: the `isinstance` assertion is the type of the parameter. The constructor and the methods require a well-formed frame: distinct columns, and every row with a cell in every column. The methods keep that property.
- DataProcessor.DataFrameCleaner.constructor, DataProcessor.DataFrameCleaner.LowerCaseColumn, DataProcessor.DataFrameCleaner.RemoveWhiteSpaces, DataProcessor.DataFrameCleaner.RemoveSpecialCharacters, DataProcessor.DataFrameCleaner.CleanTextColumn: `__init__` keeps the caller's frame without copying it, and the column methods assign a column of that frame in place. So in Python the caller's frame changes too, until `change_index`, `remove_duplicates` or `remove_missing_values` replaces the held frame by a new one. The model holds the frame as a value, so it captures neither the in-place column assignment nor this aliasing with the caller's frame.
- DataProcessor.DataFrameCleaner.GetCleanedDataframe: the frame is a value, so aliasing between the returned frame and the one the cleaner keeps is not modelled. In Python, a frame returned before a column method changes under it.
- The `isinstance(column, str)` assertions are the parameter types.
- `remove_outliers` is not modelled: its z-scores need floating-point means and standard deviations.
- `convert_data_types` is not modelled: it needs pandas dtypes.
- `remove_columns` is not modelled. Its assertion at `dataprocessor.py:83` tests a whole list for membership of the column labels, which pandas refuses because a list cannot be hashed, so no call with a list succeeds.
- The script entry points and `main.py`, `gpt.py`, `excel.py` and the database handlers are not part of this model.
