/** The statement parsers of src/parsers.py over an abstract row grid: the
    bank parser (header search, then debit/credit splitting), the credit-card
    parser (card-number extraction and the in-section state machine), and
    the format selection of `parse_file`. A grid is what `pd.read_excel`
    yields: the data rows below the sheet's first line, each a row of cells. */
module Parsers {
  import opened Common
  import opened Cells

  type Row = seq<Cell>
  type Grid = seq<Row>

  datatype ParseError =
    | BankHeaderNotFound(path: string)
    | CouldNotParse(path: string, cause: ParseError)

  /** Every row of `grid` read by `read`, in order: the reading half of a
      parser's row loop. */
  function ReadAll<T>(read: Row -> T, grid: Grid): (lines: seq<T>)
    ensures |lines| == |grid|
  {
    if grid == [] then [] else ReadAll(read, grid[..|grid| - 1]) + [read(grid[|grid| - 1])]
  }

  lemma {:induction false} ReadAllAt<T>(read: Row -> T, grid: Grid, i: nat)
    requires i < |grid|
    ensures ReadAll(read, grid)[i] == read(grid[i])
  {
    var init := grid[..|grid| - 1];
    if i < |grid| - 1 {
      ReadAllAt(read, init, i);
      assert init[i] == grid[i];
    }
  }

  // ---------------------------------------------------------------------------
  // Bank statements
  // ---------------------------------------------------------------------------

  const DATE_MARKER := "תאריך"
  const ACTION_MARKER := "תיאור פעולה"
  const DESCRIPTION_MARKER := "תיאור"

  /** Some non-missing cell of `row` has `marker` in its text. */
  predicate SomeCellContains(row: Row, marker: string) {
    row != [] &&
    ((!row[0].Empty? && Contains(CellText(row[0]), marker)) || SomeCellContains(row[1..], marker))
  }

  /** The bank header: one cell mentions a date, one a description. */
  predicate IsBankHeader(row: Row) {
    SomeCellContains(row, DATE_MARKER) &&
    (SomeCellContains(row, ACTION_MARKER) || SomeCellContains(row, DESCRIPTION_MARKER))
  }

  /** The index of the first header row. */
  function HeaderRow(grid: Grid): (r: Option<nat>)
    ensures r.Some? ==> r.value < |grid| && IsBankHeader(grid[r.value])
    ensures r.Some? ==> forall j :: 0 <= j < r.value ==> !IsBankHeader(grid[j])
    ensures r.None? ==> forall j :: 0 <= j < |grid| ==> !IsBankHeader(grid[j])
  {
    if grid == [] then None
    else if IsBankHeader(grid[0]) then Some(0)
    else match HeaderRow(grid[1..])
      case None => None
      case Some(k) => Some(k + 1)
  }

  /** The fields of a bank data row: column 0 (date), 3 (description), 4
      (debit) and 5 (credit), each already interpreted. */
  datatype BankLine = BankLine(date: Option<Date>, description: string, debit: Option<int>, credit: Option<int>)

  function ReadBankLine(row: Row): BankLine {
    BankLine(ParseDate(CellAt(row, 0)), Strip(CellText(CellAt(row, 3))),
             ParseAmount(CellAt(row, 4)), ParseAmount(CellAt(row, 5)))
  }

  /** The bank rows of `grid`, each read. */
  function BankLines(grid: Grid): (lines: seq<BankLine>)
    ensures |lines| == |grid|
  {
    ReadAll(ReadBankLine, grid)
  }

  /** The shape of every transaction the bank parser emits. */
  predicate IsBankRecord(t: Transaction, path: string) {
    t.currency == ILS && t.source == BANK && t.sourceFile == path &&
    t.amount != 0 && t.cardNumber == None && t.category == None
  }

  function BankTransaction(date: Date, description: string, amount: int, path: string): Transaction {
    Transaction(date, description, amount, ILS, BANK, path, None, None)
  }

  predicate HasDebit(line: BankLine) {
    line.debit.Some? && line.debit.value > 0
  }

  predicate HasCredit(line: BankLine) {
    line.credit.Some? && line.credit.value > 0
  }

  /** The transactions of one bank line: none when its date does not parse;
      otherwise a debit entry when the debit is positive, then a credit
      entry when the credit is positive. */
  function LineEntries(path: string, line: BankLine): (r: seq<Transaction>)
    ensures |r| <= 2
    ensures line.date.None? ==> r == []
    ensures forall t :: t in r ==>
      IsBankRecord(t, path) && line.date == Some(t.date) && t.description == line.description
  {
    match line.date
    case None => []
    case Some(date) =>
      (if HasDebit(line) then [BankTransaction(date, line.description, -line.debit.value, path)] else []) +
      (if HasCredit(line) then [BankTransaction(date, line.description, line.credit.value, path)] else [])
  }

  /** The transactions of a run of lines, in order. */
  function BankRows(path: string, lines: seq<BankLine>): seq<Transaction> {
    if lines == [] then [] else BankRows(path, lines[..|lines| - 1]) + LineEntries(path, lines[|lines| - 1])
  }

  /** `parse_bank_statement`: the rows after the first header, or an error
      when there is no header. */
  function BankStatement(path: string, grid: Grid): Result<seq<Transaction>, ParseError> {
    match HeaderRow(grid)
    case None => Err(BankHeaderNotFound(path))
    case Some(h) => Ok(BankRows(path, BankLines(grid[h + 1..])))
  }

  lemma {:induction false} HeaderRowIsFirst(grid: Grid, k: nat)
    requires k <= |grid| && forall j :: 0 <= j < k ==> !IsBankHeader(grid[j])
    requires k < |grid| ==> IsBankHeader(grid[k])
    ensures HeaderRow(grid) == if k == |grid| then None else Some(k)
  {
  }


  /** A line with a date yields one transaction per positive side, the debit
      (negated) first and the credit after it. */
  lemma BankLineSplit(path: string, line: BankLine)
    requires line.date.Some?
    ensures var r := LineEntries(path, line);
      && |r| == (if HasDebit(line) then 1 else 0) + (if HasCredit(line) then 1 else 0)
      && (HasDebit(line) ==> r[0].amount == -line.debit.value)
      && (HasCredit(line) ==> r[|r| - 1].amount == line.credit.value)
  {
  }

  /** Every transaction of a run of lines is a bank record dated by one of
      those lines. */
  lemma {:induction false} BankRowsProvenance(path: string, lines: seq<BankLine>)
    ensures forall t :: t in BankRows(path, lines) ==>
      IsBankRecord(t, path) && exists i :: 0 <= i < |lines| && lines[i].date == Some(t.date)
  {
    if lines != [] {
      var init := lines[..|lines| - 1];
      BankRowsProvenance(path, init);
      assert forall i :: 0 <= i < |init| ==> init[i] == lines[i];
    }
  }

  /** Every transaction read from `rows` is dated by one of them. */
  lemma BankRowsDated(path: string, rows: Grid)
    ensures forall t :: t in BankRows(path, BankLines(rows)) ==>
      IsBankRecord(t, path) && exists i :: 0 <= i < |rows| && ParseDate(CellAt(rows[i], 0)) == Some(t.date)
  {
    var lines := BankLines(rows);
    BankRowsProvenance(path, lines);
    forall t | t in BankRows(path, lines)
      ensures exists i :: 0 <= i < |rows| && ParseDate(CellAt(rows[i], 0)) == Some(t.date)
    {
      var i :| 0 <= i < |rows| && lines[i].date == Some(t.date);
      ReadAllAt(ReadBankLine, rows, i);
    }
  }

  /** A statement without a header row is an error; otherwise every
      transaction is a non-zero shekel record of the bank whose date is the
      date of a row below the first header. */
  lemma BankStatementProvenance(path: string, grid: Grid)
    ensures BankStatement(path, grid).Err? <==> forall j :: 0 <= j < |grid| ==> !IsBankHeader(grid[j])
    ensures BankStatement(path, grid).Ok? ==>
      var h := HeaderRow(grid).value;
      forall t :: t in BankStatement(path, grid).value ==>
        IsBankRecord(t, path) &&
        exists i :: h < i < |grid| && ParseDate(CellAt(grid[i], 0)) == Some(t.date)
  {
    if HeaderRow(grid).Some? {
      var h := HeaderRow(grid).value;
      var rows := grid[h + 1..];
      BankRowsDated(path, rows);
      forall t | t in BankRows(path, BankLines(rows))
        ensures exists i :: h < i < |grid| && ParseDate(CellAt(grid[i], 0)) == Some(t.date)
      {
        var i :| 0 <= i < |rows| && ParseDate(CellAt(rows[i], 0)) == Some(t.date);
        assert rows[i] == grid[h + 1 + i];
      }
    }
  }

  // ---------------------------------------------------------------------------
  // Credit-card statements: the card number
  // ---------------------------------------------------------------------------

  predicate IsDash(c: char) {
    c == '-' || c == '–'
  }

  /** `re.search(r'(\d{4})', s)`: the leftmost run of four digits. */
  function FirstFourDigits(s: string): (r: Option<string>)
    ensures r.Some? ==> |r.value| == 4 && AllDigits(r.value)
    decreases |s|
  {
    if |s| < 4 then None
    else if AllDigits(s[..4]) then Some(s[..4])
    else FirstFourDigits(s[1..])
  }

  /** `re.search(r'[-–]\s*(\d{4})\s*$', s)`: four digits that end the string
      up to trailing whitespace, preceded by a dash and optional whitespace. */
  function TrailingCardDigits(s: string): (r: Option<string>)
    ensures r.Some? ==> |r.value| == 4 && AllDigits(r.value)
  {
    var t := StripRight(s);
    if |t| < 5 then None
    else
      var digits := t[|t| - 4..];
      var before := StripRight(t[..|t| - 4]);
      if AllDigits(digits) && |before| > 0 && IsDash(before[|before| - 1]) then Some(digits) else None
  }

  /** A string cell that ends in a card suffix. */
  predicate HasCardSuffix(c: Cell) {
    c.Str? && TrailingCardDigits(c.text).Some?
  }

  /** The first string cell of the row that ends in a card suffix. */
  function RowCardDigits(row: Row): (r: Option<string>)
    ensures r.Some? ==> |r.value| == 4 && AllDigits(r.value)
  {
    if row == [] then None
    else if HasCardSuffix(row[0]) then TrailingCardDigits(row[0].text)
    else RowCardDigits(row[1..])
  }

  /** Four digits start at position `i` of `s`. */
  predicate DigitRunAt(s: string, i: int) {
    0 <= i && i + 4 <= |s| && AllDigits(s[i..i + 4])
  }

  lemma DigitRunShift(s: string, i: int)
    requires s != [] && i >= 0
    ensures DigitRunAt(s, i + 1) <==> DigitRunAt(s[1..], i)
  {
    if 0 <= i && i + 5 <= |s| {
      var a, b := s[i + 1..i + 5], s[1..][i..i + 4];
      forall m | 0 <= m < 4 ensures a[m] == b[m] {
      }
      assert a == b;
    }
  }

  /** The search finds something exactly when `s` holds four digits in a
      row, and what it finds is the leftmost such run. */
  lemma {:induction false} FirstFourDigitsLeftmost(s: string)
    ensures FirstFourDigits(s).None? <==> forall i :: !DigitRunAt(s, i)
    ensures FirstFourDigits(s).Some? ==> exists i ::
      DigitRunAt(s, i) && FirstFourDigits(s).value == s[i..i + 4] &&
      forall j :: 0 <= j < i ==> !DigitRunAt(s, j)
    decreases |s|
  {
    if |s| < 4 {
    } else if AllDigits(s[..4]) {
      assert s[0..4] == s[..4];
      assert DigitRunAt(s, 0);
    } else {
      var t := s[1..];
      FirstFourDigitsLeftmost(t);
      assert s[0..4] == s[..4];
      assert !DigitRunAt(s, 0);
      forall i | DigitRunAt(s, i) ensures DigitRunAt(t, i - 1) {
        DigitRunShift(s, i - 1);
      }
      if FirstFourDigits(t).Some? {
        var i :| DigitRunAt(t, i) && FirstFourDigits(t).value == t[i..i + 4] &&
          forall j :: 0 <= j < i ==> !DigitRunAt(t, j);
        DigitRunShift(s, i);
        assert t[i..i + 4] == s[i + 1..i + 5];
        forall j | 0 < j < i + 1 ensures !DigitRunAt(s, j) {
          DigitRunShift(s, j - 1);
        }
      }
    }
  }

  /** `t` ends in the four digits `d`, and before them, past some whitespace,
      stands a dash. */
  ghost predicate EndsInCardSuffix(t: string, d: string) {
    && |d| == 4 && AllDigits(d) && |t| >= 4 && t[|t| - 4..] == d
    && exists k :: 0 <= k < |t| - 4 && IsDash(t[k]) &&
         forall j :: k < j < |t| - 4 ==> IsSpace(t[j])
  }

  /** Right-stripping a string whose last non-space character is at `k`
      keeps exactly the characters up to `k`. */
  lemma StripRightAt(u: string, k: nat)
    requires k < |u| && !IsSpace(u[k])
    requires forall j :: k < j < |u| ==> IsSpace(u[j])
    ensures StripRight(u) == u[..k + 1]
  {
    var r := StripRight(u);
    StripRightSpec(u);
    assert |r| > k;
  }

  lemma TrailingCardDigitsSound(s: string, d: string)
    requires TrailingCardDigits(s) == Some(d)
    ensures EndsInCardSuffix(StripRight(s), d)
  {
    var t := StripRight(s);
    var u := t[..|t| - 4];
    var before := StripRight(u);
    StripRightSpec(u);
    var k := |before| - 1;
    assert t[k] == before[k];
    forall j | k < j < |t| - 4 ensures IsSpace(t[j]) {
      assert t[j] == u[j];
    }
  }

  lemma TrailingCardDigitsComplete(s: string, d: string)
    requires EndsInCardSuffix(StripRight(s), d)
    ensures TrailingCardDigits(s) == Some(d)
  {
    var t := StripRight(s);
    var u := t[..|t| - 4];
    var k :| 0 <= k < |t| - 4 && IsDash(t[k]) &&
      forall j :: k < j < |t| - 4 ==> IsSpace(t[j]);
    assert u[k] == t[k];
    assert forall j :: k < j < |u| ==> u[j] == t[j];
    StripRightAt(u, k);
    assert StripRight(u)[k] == t[k];
  }

  /** The suffix search yields `d` exactly when the right-stripped string ends
      in a dash, optional whitespace and the four digits `d`. */
  lemma TrailingCardDigitsExact(s: string, d: string)
    ensures TrailingCardDigits(s) == Some(d) <==> EndsInCardSuffix(StripRight(s), d)
  {
    if TrailingCardDigits(s) == Some(d) {
      TrailingCardDigitsSound(s, d);
    }
    if EndsInCardSuffix(StripRight(s), d) {
      TrailingCardDigitsComplete(s, d);
    }
  }

  /** The row's suffix is the one of its first string cell that has one,
      and there is none when no cell has one. */
  lemma {:induction false} RowCardDigitsFirst(row: Row)
    ensures RowCardDigits(row).None? <==> forall c :: 0 <= c < |row| ==> !HasCardSuffix(row[c])
    ensures forall c :: (0 <= c < |row| && HasCardSuffix(row[c]) &&
      (forall j :: 0 <= j < c ==> !HasCardSuffix(row[j]))) ==>
        RowCardDigits(row) == TrailingCardDigits(row[c].text)
  {
    if row != [] {
      var rest := row[1..];
      RowCardDigitsFirst(rest);
      assert forall c :: 0 < c < |row| ==> row[c] == rest[c - 1];
      if !HasCardSuffix(row[0]) {
        forall c | 0 < c < |row| && HasCardSuffix(row[c]) &&
          (forall j :: 0 <= j < c ==> !HasCardSuffix(row[j]))
          ensures RowCardDigits(row) == TrailingCardDigits(row[c].text)
        {
          assert forall j :: 0 <= j < c - 1 ==> rest[j] == row[j + 1];
        }
      }
    }
  }

  /** The card number after scanning `rows`, starting from `init`: each row
      that carries a suffix overwrites it. */
  function ScanCardNumber(init: Option<string>, rows: Grid): Option<string> {
    if rows == [] then init
    else
      var last := RowCardDigits(rows[|rows| - 1]);
      if last.Some? then last else ScanCardNumber(init, rows[..|rows| - 1])
  }

  /** The card number of a statement: the first four digits of the file
      name, overridden by the suffixes found in the cells. */
  function CardNumberOf(path: string, grid: Grid): Option<string> {
    ScanCardNumber(FirstFourDigits(Basename(path)), grid)
  }

  /** Without any suffix in the cells the filename's digits stand. */
  lemma {:induction false} CardNumberWithoutSuffix(init: Option<string>, rows: Grid)
    requires forall i :: 0 <= i < |rows| ==> RowCardDigits(rows[i]).None?
    ensures ScanCardNumber(init, rows) == init
  {
    if rows != [] {
      var init' := rows[..|rows| - 1];
      assert forall i :: 0 <= i < |init'| ==> init'[i] == rows[i];
      CardNumberWithoutSuffix(init, init');
    }
  }

  /** The suffix of the last row that has one wins (the first matching cell
      of that row). */
  lemma {:induction false} CardNumberLastMatchWins(init: Option<string>, rows: Grid, k: nat)
    requires k < |rows| && RowCardDigits(rows[k]).Some?
    requires forall j :: k < j < |rows| ==> RowCardDigits(rows[j]).None?
    ensures ScanCardNumber(init, rows) == RowCardDigits(rows[k])
  {
    if k < |rows| - 1 {
      var init' := rows[..|rows| - 1];
      assert RowCardDigits(rows[|rows| - 1]).None?;
      assert init'[k] == rows[k];
      assert forall j :: k < j < |init'| ==> init'[j] == rows[j];
      CardNumberLastMatchWins(init, init', k);
    }
  }

  // ---------------------------------------------------------------------------
  // Credit-card statements: the section state machine
  // ---------------------------------------------------------------------------

  const PURCHASE_DATE_MARKER := "תאריך רכישה"
  const MERCHANT_MARKER := "שם בית עסק"
  const TOTAL_MARKER := "סה\"כ"
  const NOT_YET_POSTED := "טרם נקלט"

  /** The texts of the cells of a row, a missing cell reading as ''. */
  function CellTexts(row: Row): (r: seq<string>)
    ensures |r| == |row|
  {
    if row == [] then [] else CellTexts(row[..|row| - 1]) + [CellText(row[|row| - 1])]
  }

  /** The row's cells joined by single spaces. */
  function RowText(row: Row): string {
    Join(CellTexts(row), " ")
  }

  /** A section header names both the purchase date and the merchant columns. */
  predicate IsSectionHeader(row: Row) {
    Contains(RowText(row), PURCHASE_DATE_MARKER) && Contains(RowText(row), MERCHANT_MARKER)
  }

  /** What the card parser reads from a row: whether it is a section header,
      whether its first cell is missing, whether that cell is a totals line
      or blank, the purchase date (column 0), the merchant (column 1), the
      original amount (column 2) and the charge in shekels (column 4). */
  datatype CardLine = CardLine(header: bool, firstMissing: bool, closes: bool, date: Option<Date>,
                               merchant: string, original: Option<int>, charged: Option<int>)

  function ReadCardLine(row: Row): CardLine {
    var first := CellAt(row, 0);
    CardLine(IsSectionHeader(row), first.Empty?,
             Contains(CellText(first), TOTAL_MARKER) || Strip(CellText(first)) == "",
             ParseDate(first), Strip(CellText(CellAt(row, 1))),
             ParseAmount(CellAt(row, 2)), ParseAmount(CellAt(row, 4)))
  }

  /** The card rows of `grid`, each read. */
  function CardLines(grid: Grid): (lines: seq<CardLine>)
    ensures |lines| == |grid|
  {
    ReadAll(ReadCardLine, grid)
  }

  /** The shape of every transaction the card parser emits: a non-positive
      shekel amount charged to the statement's card, naming a real merchant. */
  predicate IsCardRecord(t: Transaction, path: string, card: Option<string>) {
    t.amount <= 0 && t.currency == ILS && t.source == CREDIT_CARD && t.sourceFile == path &&
    t.cardNumber == card && t.category == None &&
    t.description != "" && t.description != NOT_YET_POSTED
  }

  /** The transaction of one row inside a section: none without a date,
      without a merchant (or with the not-yet-posted placeholder), or without
      any amount; otherwise the charge in shekels (the original amount when
      that is missing) as an expense. */
  function CardEntry(path: string, card: Option<string>, line: CardLine): (r: Option<Transaction>)
    ensures line.date.None? ==> r == None
    ensures line.merchant == "" || line.merchant == NOT_YET_POSTED ==> r == None
    ensures line.original.None? && line.charged.None? ==> r == None
    ensures (line.date.Some? && line.merchant != "" && line.merchant != NOT_YET_POSTED &&
      (line.charged.Some? || line.original.Some?)) ==> r.Some?
    ensures r.Some? ==>
      && IsCardRecord(r.value, path, card)
      && line.date == Some(r.value.date)
      && r.value.description == line.merchant
      && (line.charged.Some? ==> r.value.amount == -(Abs(line.charged.value) as int))
      && (line.charged.None? ==> r.value.amount == -(Abs(line.original.value) as int))
  {
    match line.date
    case None => None
    case Some(date) =>
      if line.merchant == "" || line.merchant == NOT_YET_POSTED then None
      else
        var amount := if line.charged.Some? then line.charged else line.original;
        if amount.None? then None
        else Some(Transaction(date, line.merchant, -(Abs(amount.value) as int), ILS, CREDIT_CARD, path, card, None))
  }

  /** The section flag after a row. */
  function NextInSection(inSection: bool, line: CardLine): bool {
    if line.header then true
    else if !inSection then false
    else if line.firstMissing then true
    else !line.closes
  }

  /** What a row contributes, given the section flag before it. */
  function Emitted(path: string, card: Option<string>, inSection: bool, line: CardLine): seq<Transaction> {
    if line.header || !inSection || line.firstMissing || line.closes then []
    else match CardEntry(path, card, line)
      case None => []
      case Some(t) => [t]
  }

  datatype CardScan = CardScan(inSection: bool, found: seq<Transaction>)

  /** The state of the row loop after a run of rows. */
  function CardRows(path: string, card: Option<string>, lines: seq<CardLine>): CardScan {
    if lines == [] then CardScan(false, [])
    else
      var before := CardRows(path, card, lines[..|lines| - 1]);
      var line := lines[|lines| - 1];
      CardScan(NextInSection(before.inSection, line),
               before.found + Emitted(path, card, before.inSection, line))
  }

  /** `parse_credit_card_statement` */
  function CardStatement(path: string, grid: Grid): seq<Transaction> {
    CardRows(path, CardNumberOf(path, grid), CardLines(grid)).found
  }

  /** Every card transaction has the card record shape. */
  lemma {:induction false} CardRowsShape(path: string, card: Option<string>, lines: seq<CardLine>)
    ensures forall t :: t in CardRows(path, card, lines).found ==> IsCardRecord(t, path, card)
  {
    if lines != [] {
      CardRowsShape(path, card, lines[..|lines| - 1]);
    }
  }

  /** Every transaction of a statement is a non-positive shekel amount that
      carries the one card number of the file and names a real merchant. */
  lemma CardStatementShape(path: string, grid: Grid)
    ensures forall t :: t in CardStatement(path, grid) ==> IsCardRecord(t, path, CardNumberOf(path, grid))
  {
    CardRowsShape(path, CardNumberOf(path, grid), CardLines(grid));
  }

  /** A row that closes an open section (and is itself skipped). */
  predicate LeavesSection(line: CardLine) {
    !line.header && !line.firstMissing && line.closes
  }

  /** A section is open exactly when some header row was seen and no row
      after it closed the section. */
  ghost predicate OpenSection(lines: seq<CardLine>) {
    exists h :: 0 <= h < |lines| && lines[h].header &&
      forall j :: h < j < |lines| ==> !LeavesSection(lines[j])
  }

  /** The section flag is set exactly when some header row was seen and no
      row after it closed the section. */
  lemma {:induction false} CardSectionOpen(path: string, card: Option<string>, lines: seq<CardLine>)
    ensures CardRows(path, card, lines).inSection <==> OpenSection(lines)
  {
    if lines != [] {
      var init := lines[..|lines| - 1];
      var n := |lines| - 1;
      CardSectionOpen(path, card, init);
      if CardRows(path, card, lines).inSection {
        if !lines[n].header {
          var h :| 0 <= h < |init| && init[h].header &&
            forall j :: h < j < |init| ==> !LeavesSection(init[j]);
          assert lines[h] == init[h];
          forall j | h < j < |lines| ensures !LeavesSection(lines[j]) {
            if j < n { assert lines[j] == init[j]; }
          }
        }
      }
    }
  }

  /** `t` is the transaction of a non-header row `i` that follows a section
      header `h` with no closing row in between. */
  ghost predicate FromSection(path: string, card: Option<string>, lines: seq<CardLine>, t: Transaction) {
    exists h, i :: 0 <= h < i < |lines| && lines[h].header && !lines[i].header &&
      CardEntry(path, card, lines[i]) == Some(t) &&
      forall j :: h < j < i ==> !LeavesSection(lines[j])
  }

  lemma FromSectionExtends(path: string, card: Option<string>, lines: seq<CardLine>, t: Transaction)
    requires lines != [] && FromSection(path, card, lines[..|lines| - 1], t)
    ensures FromSection(path, card, lines, t)
  {
    var init := lines[..|lines| - 1];
    var h, i :| 0 <= h < i < |init| && init[h].header && !init[i].header &&
      CardEntry(path, card, init[i]) == Some(t) &&
      forall j :: h < j < i ==> !LeavesSection(init[j]);
    assert lines[h] == init[h] && lines[i] == init[i];
    assert forall j :: h < j < i ==> lines[j] == init[j];
  }

  lemma FromSectionLast(path: string, card: Option<string>, lines: seq<CardLine>, t: Transaction)
    requires lines != [] && OpenSection(lines[..|lines| - 1])
    requires !lines[|lines| - 1].header && CardEntry(path, card, lines[|lines| - 1]) == Some(t)
    ensures FromSection(path, card, lines, t)
  {
    var init := lines[..|lines| - 1];
    var n := |lines| - 1;
    var h :| 0 <= h < |init| && init[h].header &&
      forall j :: h < j < |init| ==> !LeavesSection(init[j]);
    assert lines[h] == init[h];
    assert forall j :: h < j < n ==> lines[j] == init[j];
  }

  /** Rows outside a section never produce transactions: every transaction
      is the reading of a non-header row inside a section. */
  lemma {:induction false} CardSectionProvenance(path: string, card: Option<string>, lines: seq<CardLine>)
    ensures forall t :: t in CardRows(path, card, lines).found ==> FromSection(path, card, lines, t)
  {
    if lines != [] {
      var init := lines[..|lines| - 1];
      CardSectionProvenance(path, card, init);
      CardSectionOpen(path, card, init);
      forall t | t in CardRows(path, card, lines).found
        ensures FromSection(path, card, lines, t)
      {
        if t in CardRows(path, card, init).found {
          FromSectionExtends(path, card, lines, t);
        } else {
          FromSectionLast(path, card, lines, t);
        }
      }
    }
  }

  /** The transactions of a run of rows start the transactions of any
      longer run. */
  lemma {:induction false} CardRowsFoundPrefix(path: string, card: Option<string>, lines: seq<CardLine>, k: nat)
    requires k <= |lines|
    ensures CardRows(path, card, lines[..k]).found <= CardRows(path, card, lines).found
  {
    if k < |lines| {
      var init := lines[..|lines| - 1];
      assert init[..k] == lines[..k];
      CardRowsFoundPrefix(path, card, init, k);
    } else {
      assert lines[..k] == lines;
    }
  }

  /** A header at `h` with no closing row up to `i` leaves the section open
      before row `i`. */
  lemma OpenBefore(lines: seq<CardLine>, h: nat, i: nat)
    requires h < i <= |lines| && lines[h].header
    requires forall j :: h < j < i ==> !LeavesSection(lines[j])
    ensures OpenSection(lines[..i])
  {
    var pre := lines[..i];
    assert pre[h] == lines[h];
    assert forall j :: h < j < i ==> pre[j] == lines[j];
  }

  /** A row read inside a section that neither is a header, nor is blank or
      missing in its first cell, nor closes the section, adds its
      transaction. */
  lemma CardRowsEmits(path: string, card: Option<string>, lines: seq<CardLine>, t: Transaction)
    requires lines != [] && CardRows(path, card, lines[..|lines| - 1]).inSection
    requires var line := lines[|lines| - 1];
      !line.header && !line.firstMissing && !line.closes && CardEntry(path, card, line) == Some(t)
    ensures CardRows(path, card, lines).found == CardRows(path, card, lines[..|lines| - 1]).found + [t]
  {
  }

  /** Conversely, every row inside a section that is neither a header, nor
      blank or missing in its first cell, nor a totals line, contributes the
      transaction it reads as. */
  lemma CardRowsCollects(path: string, card: Option<string>, lines: seq<CardLine>, h: nat, i: nat, t: Transaction)
    requires h < i < |lines| && lines[h].header
    requires forall j :: h < j < i ==> !LeavesSection(lines[j])
    requires !lines[i].header && !lines[i].firstMissing && !lines[i].closes
    requires CardEntry(path, card, lines[i]) == Some(t)
    ensures t in CardRows(path, card, lines).found
  {
    var pre, upto := lines[..i], lines[..i + 1];
    OpenBefore(lines, h, i);
    CardSectionOpen(path, card, pre);
    assert upto[..i] == pre && upto[i] == lines[i];
    CardRowsEmits(path, card, upto, t);
    var small := CardRows(path, card, upto).found;
    CardRowsFoundPrefix(path, card, lines, i + 1);
    assert CardRows(path, card, lines).found[|small| - 1] == small[|small| - 1] == t;
  }

  /** On the rows of a statement: a row below a section header, with no
      closing row in between, that is not a header, whose first cell is
      present, non-blank and not a totals line, and that reads as a
      transaction, has that transaction in the statement. */
  lemma CardStatementCollects(path: string, grid: Grid, h: nat, i: nat, t: Transaction)
    requires h < i < |grid| && IsSectionHeader(grid[h])
    requires forall j :: h < j < i ==> !LeavesSection(ReadCardLine(grid[j]))
    requires var line := ReadCardLine(grid[i]);
      !line.header && !line.firstMissing && !line.closes &&
      CardEntry(path, CardNumberOf(path, grid), line) == Some(t)
    ensures t in CardStatement(path, grid)
  {
    var lines := CardLines(grid);
    ReadAllAt(ReadCardLine, grid, h);
    ReadAllAt(ReadCardLine, grid, i);
    forall j | h < j < i ensures !LeavesSection(lines[j]) {
      ReadAllAt(ReadCardLine, grid, j);
    }
    CardRowsCollects(path, CardNumberOf(path, grid), lines, h, i, t);
  }

  /** What a transaction of row `i` below header row `h` says about the
      sheet's cells. */
  lemma CardRowCells(path: string, card: Option<string>, grid: Grid, h: nat, i: nat, t: Transaction)
    requires h < i < |grid|
    requires CardLines(grid)[h].header && !CardLines(grid)[i].header
    requires CardEntry(path, card, CardLines(grid)[i]) == Some(t)
    ensures IsSectionHeader(grid[h]) && !IsSectionHeader(grid[i])
    ensures ParseDate(CellAt(grid[i], 0)) == Some(t.date)
    ensures t.description == Strip(CellText(CellAt(grid[i], 1)))
  {
    ReadAllAt(ReadCardLine, grid, h);
    ReadAllAt(ReadCardLine, grid, i);
  }

  /** On the rows of a statement: every transaction comes from a row below a
      section header, is not itself a header, and carries that row's date
      and stripped merchant. */
  lemma CardStatementProvenance(path: string, grid: Grid)
    ensures forall t :: t in CardStatement(path, grid) ==>
      IsCardRecord(t, path, CardNumberOf(path, grid)) &&
      exists h, i :: 0 <= h < i < |grid| && IsSectionHeader(grid[h]) && !IsSectionHeader(grid[i]) &&
        ParseDate(CellAt(grid[i], 0)) == Some(t.date) && t.description == Strip(CellText(CellAt(grid[i], 1)))
  {
    var card := CardNumberOf(path, grid);
    var lines := CardLines(grid);
    CardRowsShape(path, card, lines);
    CardSectionProvenance(path, card, lines);
    forall t | t in CardStatement(path, grid)
      ensures exists h, i :: 0 <= h < i < |grid| && IsSectionHeader(grid[h]) && !IsSectionHeader(grid[i]) &&
                      ParseDate(CellAt(grid[i], 0)) == Some(t.date) && t.description == Strip(CellText(CellAt(grid[i], 1)))
    {
      assert FromSection(path, card, lines, t);
      var h, i :| 0 <= h < i < |lines| && lines[h].header && !lines[i].header &&
        CardEntry(path, card, lines[i]) == Some(t) &&
        forall j :: h < j < i ==> !LeavesSection(lines[j]);
      CardRowCells(path, card, grid, h, i, t);
    }
  }

  /** A statement without a section header yields no transactions. */
  lemma NoSectionNoTransactions(path: string, grid: Grid)
    requires forall i :: 0 <= i < |grid| ==> !IsSectionHeader(grid[i])
    ensures CardStatement(path, grid) == []
  {
    CardStatementProvenance(path, grid);
    NoMemberEmpty(CardStatement(path, grid));
  }

  /** A row whose merchant cell is blank or the not-yet-posted placeholder. */
  predicate Unposted(row: Row) {
    var merchant := Strip(CellText(CellAt(row, 1)));
    merchant == "" || merchant == NOT_YET_POSTED
  }

  /** A statement whose non-header rows all lack a posted merchant yields no
      transactions. */
  lemma UnpostedRowsYieldNothing(path: string, grid: Grid)
    requires forall i :: 0 <= i < |grid| ==> (IsSectionHeader(grid[i]) || Unposted(grid[i]))
    ensures CardStatement(path, grid) == []
  {
    CardStatementProvenance(path, grid);
    NoMemberEmpty(CardStatement(path, grid));
  }

  // ---------------------------------------------------------------------------
  // Format selection
  // ---------------------------------------------------------------------------

  const BANK_SIGNATURES := ["תנועות בחשבון", "בנק יהב"]
  const CARD_SIGNATURES := ["פירוט עסקאות", "ישראכרט", "מסטרקארד"]

  datatype StatementKind = BankKind | CardKind

  /** The texts of the non-missing cells of `rows`, row by row. */
  function PresentTexts(rows: Grid): seq<string> {
    if rows == [] then [] else PresentTexts(rows[..|rows| - 1]) + RowPresentTexts(rows[|rows| - 1])
  }

  function RowPresentTexts(row: Row): seq<string> {
    if row == [] then []
    else RowPresentTexts(row[..|row| - 1]) + (if row[|row| - 1].Empty? then [] else [CellText(row[|row| - 1])])
  }

  /** The text of the first ten rows that the signatures are looked up in. */
  function LeadingText(grid: Grid): string {
    Join(PresentTexts(if |grid| <= 10 then grid else grid[..10]), " ")
  }

  predicate MentionsAny(text: string, signatures: seq<string>) {
    exists i :: 0 <= i < |signatures| && Contains(text, signatures[i])
  }

  /** Content signatures decide first (bank before card); otherwise a file
      name containing `עו` or `bank` (any case) means a bank statement, and
      everything else is read as a credit-card statement. */
  function DetectKind(path: string, grid: Grid): (k: StatementKind)
    ensures MentionsAny(LeadingText(grid), BANK_SIGNATURES) ==> k == BankKind
    ensures !MentionsAny(LeadingText(grid), BANK_SIGNATURES) && MentionsAny(LeadingText(grid), CARD_SIGNATURES) ==>
      k == CardKind
    ensures !MentionsAny(LeadingText(grid), BANK_SIGNATURES) && !MentionsAny(LeadingText(grid), CARD_SIGNATURES) ==>
      (k == BankKind <==> Contains(path, "עו") || Contains(Lower(path), "bank"))
  {
    var text := LeadingText(grid);
    if MentionsAny(text, BANK_SIGNATURES) then BankKind
    else if MentionsAny(text, CARD_SIGNATURES) then CardKind
    else if Contains(path, "עו") || Contains(Lower(path), "bank") then BankKind
    else CardKind
  }

  /** `parse_file` */
  function ParsedFile(path: string, grid: Grid): Result<seq<Transaction>, ParseError> {
    match DetectKind(path, grid)
    case BankKind =>
      (match BankStatement(path, grid)
       case Ok(ts) => Ok(ts)
       case Err(e) => Err(CouldNotParse(path, e)))
    case CardKind => Ok(CardStatement(path, grid))
  }

  /** Parsing fails only for a file read as a bank statement that has no
      header row, and the failure names the file. */
  lemma ParsedFileFailsOnlyWithoutHeader(path: string, grid: Grid)
    ensures ParsedFile(path, grid).Err? <==>
      DetectKind(path, grid) == BankKind && forall j :: 0 <= j < |grid| ==> !IsBankHeader(grid[j])
    ensures ParsedFile(path, grid).Err? ==> ParsedFile(path, grid).error == CouldNotParse(path, BankHeaderNotFound(path))
  {
    BankStatementProvenance(path, grid);
  }

  /** Every timestamp cell of the sheet holds a date a `datetime` can hold,
      as it does for any sheet pandas reads. */
  predicate StampsValid(grid: Grid) {
    forall i, j :: 0 <= i < |grid| && 0 <= j < |grid[i]| && grid[i][j].Stamp? ==> ValidDate(grid[i][j].date)
  }

  lemma FirstCellDateValid(grid: Grid, i: nat, d: Date)
    requires StampsValid(grid) && i < |grid| && ParseDate(CellAt(grid[i], 0)) == Some(d)
    ensures ValidDate(d)
  {
    if grid[i] != [] && grid[i][0].Stamp? {
      assert ValidDate(grid[i][0].date);
    }
  }

  /** On such a sheet every parsed transaction carries a valid date, so what
      the parser hands to the store is what the store keeps. */
  lemma ParsedFileDatesValid(path: string, grid: Grid)
    requires StampsValid(grid)
    ensures ParsedFile(path, grid).Ok? ==> forall t :: t in ParsedFile(path, grid).value ==> ValidDate(t.date)
  {
    match DetectKind(path, grid)
    case BankKind =>
      BankStatementProvenance(path, grid);
      if BankStatement(path, grid).Ok? {
        var h := HeaderRow(grid).value;
        forall t | t in BankStatement(path, grid).value ensures ValidDate(t.date) {
          var i :| h < i < |grid| && ParseDate(CellAt(grid[i], 0)) == Some(t.date);
          FirstCellDateValid(grid, i, t.date);
        }
      }
    case CardKind =>
      CardStatementProvenance(path, grid);
      forall t | t in CardStatement(path, grid) ensures ValidDate(t.date) {
        var h, i :| 0 <= h < i < |grid| && IsSectionHeader(grid[h]) && !IsSectionHeader(grid[i]) &&
          ParseDate(CellAt(grid[i], 0)) == Some(t.date) && t.description == Strip(CellText(CellAt(grid[i], 1)));
        FirstCellDateValid(grid, i, t.date);
      }
  }
}
