# Personal-finance transaction pipeline, modelled in Dafny

This project models the core of a personal-finance tool that imports Israeli
bank and credit-card statements. The core has four parts:

- **Statement parsers** (`src/parsers.py`) turn spreadsheet rows into
  canonical transactions.
  - `parse_amount` and `parse_date` interpret single cells.
  - The bank parser searches for a header row, then splits each later row into
    a debit (negative) and a credit (positive) transaction.
  - The credit-card parser extracts a card number, then runs an in-section
    state machine over the rows.
  - `parse_file` picks a parser from content signatures, falling back to the
    file name.
- **Categorizer** (`src/categorizer.py`) labels a description by a first-match
  search: an exact override, then a substring override in insertion order,
  then a keyword in catalog order, then the default `'אחר'`.
  - It also models the override mutators and in-place batch labelling.
  - The review loop `interactive_categorize` is driven by a script of typed
    answers.
- **Store** (`src/storage.py`) covers:
  - an append-only transaction list with duplicate detection;
  - the list of processed statement files;
  - the filtered, date-sorted query and the sorted list of months;
  - the per-category totals and the monthly summary. The monthly summary drops
    bank-side card settlements when both sources are present.

Values that the source keeps in floats are whole agorot here, so sums are
exact and the store's 0.01 duplicate tolerance becomes equality. Dates are
`(year, month, day)` triples with lexicographic order.

A spreadsheet is a grid of abstract cells: missing, a string, a number (its
value and the text `str()` prints for it), or a timestamp. Python
dictionaries are association lists in insertion order (module `Dicts`). An
assignment to a present key keeps its position.

Facts about the code that the model keeps:

- The monthly summary counts a zero amount as an expense.
- The month window is `first-of-month <= date <= first-of-next-month`. Both
  bounds are inclusive, so a transaction dated the 1st of the next month is
  counted in both months (`Store.MonthSelection`).
- Every credit-card transaction gets currency `ILS`. The currency column is
  read but never used.
- The card number comes first from the file name's first four digits. Every
  cell ending in `-NNNN` then overwrites it, so the last such row wins.
- Format detection looks at the text of the first ten rows.
- A bank row counts as a card settlement only when its lower-cased description contains
  one of eight issuer keywords: the six Hebrew issuer names, `visa cal` and
  `mastercard`.

Modules: `Common` (options, dates, the transaction record, string helpers),
`Cells`, `Parsers` (specification functions) and `Readers` (the parsers'
loops, proved equal to them), `Dicts`, `Categorization`, `Ordering` (the
stable date sort and sorted strings), `Aggregation` (category totals, the
transfer rule, the summary specification) and `Store` (class `Storage`).

## Model

| member | source | states |
|---|---|---|
| Common.StripSpec | src/parsers.py:53 | `strip()` yields the infix of the input left after removing whitespace at both ends: it neither starts nor ends with whitespace, and everything cut off is whitespace |
| Common.StripIdempotent | src/categorizer.py:98 | stripping twice is stripping once |
| Common.Basename | src/storage.py:56 | the base name has no slash, is a suffix of the path, and is preceded by a slash when shorter than the path |
| Common.BasenameIdempotent | src/storage.py:61 | the base name of a base name is itself |
| Common.StrLessTotal | src/storage.py:132 | Python's string order is total: two different strings are ordered one way or the other |
| Common.StrLessTransitive | src/storage.py:132 | Python's string order is transitive |
| Cells.ParseAmount | src/parsers.py:70-86 | numbers pass through unchanged; missing cells and timestamps give None; a string with nothing left after cleaning gives None |
| Cells.CleanSpec | src/parsers.py:80 | cleaning leaves no currency symbol, comma or whitespace and never lengthens the text |
| Cells.CleanConcat | src/parsers.py:80 | cleaning works character by character: cleaning a concatenation concatenates the cleaned parts |
| Cells.CleanNoNoise | src/parsers.py:80 | a text without noise characters is left unchanged |
| Cells.CleanAllNoise | src/parsers.py:80 | a text made only of noise characters is deleted entirely |
| Cells.UnsignedWithoutPoint | src/parsers.py:81-84 | without a point, the numerals `float` reads are the non-empty runs of digits |
| Cells.UnsignedAtPoint | src/parsers.py:81-84 | with a point, the numerals `float` reads are digits on both sides of it with at least one digit in all |
| Cells.ParseUnsignedAccepts | src/parsers.py:81-84 | an unsigned reading succeeds exactly on digits with at most one point and at least one digit |
| Cells.ParseDecimalAccepts | src/parsers.py:81-84 | a signed reading succeeds exactly on an unsigned numeral with an optional `-` or `+` in front |
| Cells.ParseAmountAccepts | src/parsers.py:78-84 | a string cell is an amount exactly when its cleaned text is an optionally signed decimal numeral |
| Cells.ParseAmountIgnoresNoise | src/parsers.py:78-84 | cleaning is idempotent, and a string reads as the same amount as its cleaned form |
| Cells.ParseAmountIgnoresDecoration | src/parsers.py:78-84 | currency symbols, separators or whitespace before or after a string do not change the amount it reads as |
| Cells.RenderAmountRoundTrip | src/parsers.py:80-82 | every amount printed as `[-]shekels.agorot` reads back as itself |
| Cells.DayField | src/parsers.py:55-59 | a `%d` field reads as a day from 1 to 31 |
| Cells.MonthField | src/parsers.py:55-59 | a `%m` field reads as a month from 1 to 12 |
| Cells.YearField | src/parsers.py:55-59 | a `%y` or `%Y` field reads as a year from 0 to 9999 |
| Cells.CalendarDate | src/parsers.py:63 | a built date is always a valid calendar date |
| Cells.ParseWith | src/parsers.py:63 | a date a format accepts is a valid calendar date |
| Cells.ParseFirst | src/parsers.py:61-65 | the date the format loop returns is valid |
| Cells.ParseFirstFirstWins | src/parsers.py:61-65 | when format `i` is the first to accept the text, its date is the result |
| Cells.ParseFirstNoneRejects | src/parsers.py:61-67 | None is returned exactly when every format rejects the text |
| Cells.ParseDate | src/parsers.py:40-67 | timestamps pass through; missing cells and numbers give None; a parsed string is a valid date |
| Cells.IsoDateRoundTrip | src/parsers.py:54-63 | an ISO `YYYY-MM-DD` date reads back as itself, both dotted formats rejecting it |
| Cells.DottedDateRoundTrip | src/parsers.py:54-63 | `DD.MM.YYYY` reads back as itself, the two-digit-year format rejecting it |
| Cells.ShortYearExample | src/parsers.py:55 | `30.01.26` reads as 30 January 2026 |
| Parsers.HeaderRow | src/parsers.py:103-108 | the header is the first row with a date-marker cell and a description-marker cell; None only when no row has both |
| Parsers.HeaderRowIsFirst | src/parsers.py:103-108 | the first header row is the one found |
| Parsers.LineEntries | src/parsers.py:124-157 | a bank line yields at most two records, none without a date, each a non-zero shekel bank record with the line's date and description |
| Parsers.BankLineSplit | src/parsers.py:137-157 | a dated line yields one record per positive side, the negated debit before the credit |
| Parsers.BankRowsProvenance | src/parsers.py:114-157 | every bank record is dated by one of the lines read |
| Parsers.BankRowsDated | src/parsers.py:114-126 | every bank record carries the parsed date of some row's first cell |
| Parsers.BankStatementProvenance | src/parsers.py:103-159 | the bank parser fails exactly when there is no header row; otherwise every record comes from a row below the first header |
| Parsers.FirstFourDigits | src/parsers.py:177-180 | a match of the file-name search is four digits |
| Parsers.FirstFourDigitsLeftmost | src/parsers.py:177-180 | the file-name search finds a match exactly when four digits stand in a row, and the match is the leftmost such run |
| Parsers.TrailingCardDigits | src/parsers.py:186 | a match of the card-suffix search is four digits |
| Parsers.TrailingCardDigitsSound | src/parsers.py:186 | a suffix found is preceded, past optional whitespace, by a dash and ends the right-stripped text |
| Parsers.TrailingCardDigitsComplete | src/parsers.py:186 | every dash, optional whitespace and four digits that end the right-stripped text are found |
| Parsers.TrailingCardDigitsExact | src/parsers.py:186 | the suffix search yields `d` exactly when the text, trailing whitespace aside, ends in a dash, optional whitespace and the four digits `d` |
| Parsers.RowCardDigits | src/parsers.py:184-189 | a row's card suffix is four digits |
| Parsers.RowCardDigitsFirst | src/parsers.py:184-189 | a row's suffix is that of its first string cell that has one, and there is none when no cell has one |
| Parsers.CardNumberWithoutSuffix | src/parsers.py:176-189 | with no suffix in any cell the file name's digits stand |
| Parsers.CardNumberLastMatchWins | src/parsers.py:183-189 | the last row that carries a suffix decides the card number |
| Parsers.CardEntry | src/parsers.py:218-266 | a section row is skipped exactly when it lacks a date, a posted merchant, or any amount; otherwise it gives `-abs` of the charge (else of the original amount), with the row's date and merchant |
| Parsers.CardRowsShape | src/parsers.py:257-266 | every card record has a non-positive shekel amount, source `credit_card`, the file's card number and a real merchant |
| Parsers.CardStatementShape | src/parsers.py:162-268 | every transaction of a card statement has that record shape, with the statement's one card number |
| Parsers.CardSectionOpen | src/parsers.py:195-216 | the section flag is set exactly when a header row was seen and no later row closed the section |
| Parsers.CardSectionProvenance | src/parsers.py:195-266 | every card record is the reading of a non-header row inside a section |
| Parsers.CardRowCells | src/parsers.py:219-233 | a record of row `i` has the parsed date of its first cell and the stripped text of its second |
| Parsers.CardRowsFoundPrefix | src/parsers.py:195-266 | the transactions of the first rows start the transactions of all rows |
| Parsers.CardRowsEmits | src/parsers.py:206-266 | a row read inside a section that is not a header, not blank or missing in its first cell and not a totals line appends exactly its transaction |
| Parsers.CardRowsCollects | src/parsers.py:195-266 | every row inside a section that is not a header, not blank or missing in its first cell, not a totals line, and reads as a transaction contributes it |
| Parsers.CardStatementCollects | src/parsers.py:195-266 | on a sheet, every such row below a section header with no closing row in between has its transaction in the statement |
| Parsers.CardStatementProvenance | src/parsers.py:195-266 | every card transaction comes from a non-header row below a section header, with that row's date and merchant |
| Parsers.NoSectionNoTransactions | src/parsers.py:195-206 | a statement without a section header yields no transactions |
| Parsers.UnpostedRowsYieldNothing | src/parsers.py:235-237 | a statement whose rows are headers or unposted placeholders yields no transactions |
| Parsers.DetectKind | src/parsers.py:280-291 | bank signatures decide first, then card signatures, then a file name containing `עו` or `bank` |
| Parsers.ParsedFileDatesValid | src/parsers.py:271-293 | when every timestamp cell holds a valid date, every parsed transaction carries a valid date |
| Parsers.ParsedFileFailsOnlyWithoutHeader | src/parsers.py:271-293 | parsing fails exactly for a file read as a bank statement without a header row, and the error names the file |
| Readers.FindHeader | src/parsers.py:103-108 | the header-search loop finds the first header row |
| Readers.EmitBankLine | src/parsers.py:124-157 | the row-loop body emits exactly the line's entries |
| Readers.EmitBankLines | src/parsers.py:114-157 | the bank row loop emits the records of the lines in order |
| Readers.ParseBankStatement | src/parsers.py:89-159 | the bank parser's loops compute the bank statement specification, error included |
| Readers.FindRowCardDigits | src/parsers.py:184-189 | the cell loop finds the row's first card suffix |
| Readers.ScanRowsForCard | src/parsers.py:183-189 | the row loop leaves the last suffix found, or the initial number |
| Readers.ExtractCardNumber | src/parsers.py:176-189 | the card number is the file name's digits overridden by the cells' suffixes |
| Readers.StepCardLine | src/parsers.py:199-216 | one pass of the row loop sets the section flag and emits as the state machine says |
| Readers.ScanCardLines | src/parsers.py:192-266 | the card row loop emits the state machine's records |
| Readers.ParseCreditCardStatement | src/parsers.py:162-268 | the card parser's loops compute the card statement specification |
| Readers.ParseFile | src/parsers.py:271-293 | `parse_file` dispatches as the detection says and wraps the bank parser's error |
| Dicts.AssignSpec | src/categorizer.py:67 | `m[k] = v` sets `k`, keeps every other key's value and the key order, appends a new key last, and keeps keys distinct |
| Dicts.DeleteSpec | src/categorizer.py:74 | `del m[k]` removes exactly `k`, keeps the other keys' values and order, and keeps keys distinct |
| Dicts.AssignAgain | src/storage.py:146-148 | setting a key to zero and then to a value is setting it to that value |
| Dicts.AssignSum | src/storage.py:148 | an assignment replaces the old value's share of the values' sum by the new value's |
| Categorization.ExactOverride | src/categorizer.py:100-105 | an exact override counts only when its category is in the catalog |
| Categorization.PartialOverride | src/categorizer.py:107-112 | a substring override counts only when its category is in the catalog |
| Categorization.KeywordCategory | src/categorizer.py:114-119 | a keyword match is a catalog entry |
| Categorization.CategorizedKnown | src/categorizer.py:101-126 | the returned key is a catalog key or `'אחר'` |
| Categorization.PartialOverrideFirst | src/categorizer.py:107-112 | the first applicable override in insertion order wins |
| Categorization.PartialOverrideNone | src/categorizer.py:107-112 | there is no substring override exactly when no override applies |
| Categorization.KeywordCategoryFirst | src/categorizer.py:114-119 | the first catalog entry with a keyword hit wins |
| Categorization.KeywordCategoryNone | src/categorizer.py:114-119 | there is no keyword category exactly when no entry has a hit |
| Categorization.ExactOverrideWins | src/categorizer.py:100-105 | an exact override into the catalog decides, ahead of substring overrides and keywords |
| Categorization.PartialOverrideWins | src/categorizer.py:107-112 | without an exact override, the first applicable substring override decides, ahead of keywords |
| Categorization.KeywordWins | src/categorizer.py:114-119 | keywords decide only when no override applies, the first entry with a hit winning |
| Categorization.DefaultWhenNothingMatches | src/categorizer.py:121-126 | with no override and no keyword hit the key is `'אחר'`, with the catalog's names for it if it has that entry |
| Categorization.TaggedAll | src/categorizer.py:128-136 | batch labelling keeps the number of transactions |
| Categorization.TaggedAllAt | src/categorizer.py:133-135 | each transaction gets its description's category key, a catalog key or `'אחר'`, and no other field changes |
| Categorization.CategoryNames | src/categorizer.py:83-88 | there is one label per catalog entry |
| Categorization.CategoryNamesKnown | src/categorizer.py:83-88 | each label names its catalog key with that entry's names |
| Categorization.Categorizer.constructor | src/categorizer.py:17-41 | the categorizer holds the loaded catalog and overrides |
| Categorization.Categorizer.AddOverride | src/categorizer.py:53-69 | the override is refused exactly when the key is neither in the catalog nor `'אחר'`; otherwise exactly that entry is set |
| Categorization.Categorizer.RemoveOverride | src/categorizer.py:71-77 | the result is true exactly when the pattern was present, and exactly that entry is removed |
| Categorization.Categorizer.GetCategoryNames | src/categorizer.py:83-88 | the loop yields the catalog's labels in catalog order |
| Categorization.Categorizer.HasKeywordHit | src/categorizer.py:116-118 | the keyword loop finds a hit exactly when some keyword occurs |
| Categorization.Categorizer.Categorize | src/categorizer.py:90-126 | the loops compute the four-step precedence |
| Categorization.Categorizer.CategorizeTransactions | src/categorizer.py:128-136 | the array is labelled in place and is itself returned |
| Categorization.ReadInt | src/categorizer.py:170 | an answer reads as a number exactly when it is digits with an optional sign, and then as their value, negated after `-` |
| Categorization.AnswersAt | src/categorizer.py:162 | each answer is the stripped line read at that prompt |
| Categorization.ChosenKey | src/categorizer.py:170-172 | a number picks a category exactly when it is from 1 to the number of labels, and then picks that label's key |
| Categorization.Uncategorized | src/categorizer.py:143 | the reviewed positions are increasing and each holds a transaction in `'אחר'` |
| Categorization.UncategorizedComplete | src/categorizer.py:143 | every transaction in `'אחר'` is reviewed |
| Categorization.AnsweredFrom | src/categorizer.py:160-165 | the loop stops at the first `q` or when the answers run out, and no earlier answer is `q` |
| Categorization.ChosenKeyKnown | src/categorizer.py:171-172 | a chosen label names a catalog key |
| Categorization.RelabelOnlyOther | src/categorizer.py:160-174 | the review changes only the category, only of transactions in `'אחר'`, and only to a catalog key |
| Categorization.LearnedDistinct | src/categorizer.py:173 | the override keys stay distinct |
| Categorization.LearnedKnown | src/categorizer.py:171-173 | each learned override maps to an offered label's key |
| Categorization.LearnedInCatalog | src/categorizer.py:171-173 | each learned override names a catalog key |
| Categorization.LearnedFromOther | src/categorizer.py:143-173 | overrides are learned only for descriptions of transactions in `'אחר'`; every other override is kept |
| Categorization.Prompt | src/categorizer.py:162 | the prompt reads the next answer of the script |
| Categorization.Learn | src/categorizer.py:172-174 | an accepted pick sets the override and the transaction's category, and nothing else |
| Categorization.Accept | src/categorizer.py:169-174 | one accepted answer advances the review by one step |
| Categorization.InteractiveCategorize | src/categorizer.py:139-177 | the loop leaves the transactions and overrides as the first `h` answers prescribe, where `h` is where it stops; `eof` is reported exactly when the answers ran out first |
| Ordering.InsertByDate | src/storage.py:122 | insertion adds exactly one element |
| Ordering.InsertByDateSorted | src/storage.py:122 | insertion keeps a date-sorted list sorted |
| Ordering.SortByDate | src/storage.py:122 | the sort is a permutation |
| Ordering.SortByDateSorted | src/storage.py:122 | the sort orders by date |
| Ordering.SortByDateStable | src/storage.py:122 | records sharing a date keep their relative order |
| Ordering.InsertString | src/storage.py:132 | insertion adds exactly the new string to the members |
| Ordering.InsertStringAscending | src/storage.py:132 | insertion keeps a strictly ascending list strictly ascending |
| Aggregation.CategoryKey | src/storage.py:145 | the key is the category when it is a non-empty string and `'אחר'` otherwise, never empty |
| Aggregation.SumByNonNegative | src/storage.py:235-237 | a sum of non-negative weights is non-negative |
| Aggregation.TallyDistinct | src/storage.py:143-148 | the category totals have distinct keys |
| Aggregation.TallyStep | src/storage.py:144-148 | one more record adds its amount to its own category's total and leaves every other total as it was |
| Aggregation.TallyLookup | src/storage.py:143-150 | a category has a total exactly when some transaction is in it, and that total is the sum of its amounts |
| Aggregation.TallySum | src/storage.py:143-150 | the category totals add up to the sum of all amounts |
| Aggregation.GroupDistinct | src/storage.py:219-233 | the groups have distinct keys |
| Aggregation.GroupLookup | src/storage.py:219-233 | a category has a group exactly when some transaction is in it; the group holds those transactions in order and their weighted total |
| Aggregation.GroupSum | src/storage.py:218-236 | the group totals add up to the partition's total |
| Aggregation.IssuerKeywordsLower | src/storage.py:162-171 | every issuer keyword is already lower-case |
| Aggregation.MentionsIssuerSpec | src/storage.py:173-176 | the keyword loop finds a hit exactly when some keyword occurs in the lowered description |
| Aggregation.IsCreditCardTransferSpec | src/storage.py:152-178 | a card settlement is exactly a bank transaction whose lowered description contains an issuer keyword |
| Aggregation.InBucketMember | src/storage.py:207-216 | a transaction is in a partition exactly when it is selected and falls in that partition |
| Aggregation.BucketsPartition | src/storage.py:207-216 | the excluded, income and expense lists together are the selection, each transaction once |
| Aggregation.SummaryTotals | src/storage.py:235-249 | balance is income less expenses; all totals are non-negative; each side's category totals add up to its total; the count is taken before exclusion |
| Aggregation.SummaryExcluded | src/storage.py:198-211 | a transaction is excluded exactly when exclusion is asked, both sources are present, and it is a card settlement |
| Aggregation.MonthWindowDefined | src/storage.py:190-194 | the window exists exactly for years 1 to 9999 and months 1 to 12, except December 9999; its bounds are valid dates |
| Aggregation.MonthWindowCovers | src/storage.py:190-196 | a date lies in the month exactly when it is on or after the first and before the next month's first |
| Store.Merged | src/storage.py:73-87 | the stored records are kept and new records are only appended |
| Store.MergedFresh | src/storage.py:76-87 | each appended record comes from the batch and duplicates no record before it, earlier batch records included |
| Store.MergedCovers | src/storage.py:73-87 | afterwards every batch record is stored |
| Store.MergedKnown | src/storage.py:76-87 | a batch of already-stored records changes nothing |
| Store.RecordedAppend | src/storage.py:76-83 | a record matches a concatenation exactly when it matches one of its parts |
| Store.FirstNewRecorded | src/storage.py:73-87 | a record new to the store matches the batch's first new occurrences exactly when it matches the batch |
| Store.MergedAppendsFirstNew | src/storage.py:73-87 | the merge appends exactly the batch's first new occurrences, in batch order |
| Store.MergedValid | src/storage.py:73-87 | merging records with valid dates into a store of such records keeps every date valid |
| Store.MergedIdempotent | src/storage.py:76-90 | adding the same batch twice adds nothing the second time |
| Store.MarkedSpec | src/storage.py:59-64 | marking keeps the list duplicate-free, keeps every name, is idempotent, and lists every path with the same base name |
| Store.SelectedCount | src/storage.py:107-119 | a record is selected as often as it is stored if it passes every filter, and otherwise never |
| Store.AnswerSpec | src/storage.py:105-123 | the query returns the selected records sorted by date, as often as stored, same-date records in stored order |
| Store.MonthSelection | src/storage.py:190-196 | the month's selection is the records of the month plus those dated on the next month's first |
| Store.MonthsOfMember | src/storage.py:127-131 | a month key is present exactly when some record is dated in that month |
| Store.Storage.constructor | src/storage.py:32-44 | the store holds the loaded records and file names, and every stored date is valid |
| Store.Storage.MarkFileProcessed | src/storage.py:59-64 | the base name is appended unless listed; the records are unchanged and stay valid; the path then counts as processed |
| Store.Storage.AddTransactions | src/storage.py:66-95 | the store becomes the merge of the batch and keeps every date valid, the count is its growth, and a given source file is marked |
| Store.Storage.GetTransactions | src/storage.py:97-123 | the filter loop and the sort compute the query's answer |
| Store.Storage.GetMonths | src/storage.py:125-132 | the months are strictly ascending and are exactly the stored records' months |
| Store.Storage.GetSummaryByCategory | src/storage.py:134-150 | the totals are the category tally of the records in the range |
| Store.Storage.GetMonthlySummary | src/storage.py:180-249 | an unrepresentable month is an error; otherwise the result is the summary of the month's selection |
| Store.Storage.ClearAll | src/storage.py:252-256 | both lists are empty afterwards, so the store is valid |
| Store.SummarizeMonth | src/storage.py:196-249 | the partition, the group loops and the sums compute the summary specification |
| Store.SplitMonth | src/storage.py:198-216 | the partition loop yields exactly the excluded, income and expense lists of the specification |
| Store.AddToTotal | src/storage.py:146-148 | setting an absent key to zero before adding `x` gives the key its old total, zero when absent, plus `x` |
| Store.TallyCategories | src/storage.py:143-148 | the loop computes the category tally |
| Store.AddToGroup | src/storage.py:221-225 | one transaction is added to its category's group, which is created empty first |
| Store.GroupByCategory | src/storage.py:219-233 | the loop computes the category groups |

## Left out

- File and JSON input/output are not modelled: `pd.read_excel`, `_load`, `_save`, `_load_config` and `save_overrides`. A statement is a given grid of cells. The constructors take the loaded tables. Persistence is the in-memory fields.
- Store.Storage.AddTransactions: the rule that saves only when something was added is not modelled, since saving is left out.
- `src/reports.py`, `finance_tool.py` and `src/__init__.py` are not part of this model; they hold presentation and command-line dispatch.
- Floating point is not modelled. Amounts are whole agorot, so the duplicate tolerance `< 0.01` is equality. Sums are exact.
- Cells.ParseAmount: a numeric cell's value in agorot is taken as given. A string keeps only the first two digits after the point. Exponents, `inf`, `nan`, underscores and non-ASCII digits accepted by `float()` are not modelled.
- Cells.ParseDate: `strptime` is modelled by the field patterns of its five formats. Locale and time-of-day are not modelled. A `datetime` value is its calendar date.
- Categorization.ReadInt: `int()`'s underscores, surrounding whitespace and non-ASCII digits are not modelled.
- `str.lower()` is modelled on ASCII letters only. Hebrew has no case.
- Regex matching is modelled by explicit scanners for the two card-number patterns. `\s` is Python's whitespace set, and `\d` covers ASCII digits only.
- Categorization.InteractiveCategorize: printing is left out. `input()` reads from a script of lines. An exhausted script stops the loop and sets `eof` where Python raises `EOFError`.
- Aliasing is not modelled: the categorizer writes into an array of transaction values, not shared objects.
- The store keeps records as `Transaction` values. The `to_dict`/`from_dict` conversion between records and JSON dictionaries is not modelled.
- Store.Storage.GetMonths: every stored record has a date in the model, since the record type always holds one. Python skips dictionaries without a date.
- Store.MonthKey: `%Y` is rendered with four digits; platforms that print years before 1000 without padding are not modelled.
- Store.Storage.GetMonthlySummary: `datetime` is modelled only for its range checks, which become `Err` results. The time of day plays no part.
- The `print` calls in the parsers' and store's `__main__` blocks are left out.
