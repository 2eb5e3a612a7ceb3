/** The statement parsers of src/parsers.py as the loops they are: each
    method walks the grid row by row, as the Python does, and is proved
    equal to the corresponding function of module Parsers. */
module Readers {
  import opened Common
  import opened Cells
  import opened Parsers

  /** The reading half of a parser's row loop: every row, read in order. */
  method ReadRows<T>(read: Row -> T, rows: Grid) returns (lines: seq<T>)
    ensures lines == ReadAll(read, rows)
  {
    lines := [];
    var idx := 0;
    while idx < |rows|
      invariant idx <= |rows|
      invariant lines == ReadAll(read, rows)[..idx]
    {
      ReadAllAt(read, rows, idx);
      lines := lines + [read(rows[idx])];
      idx := idx + 1;
    }
  }

  // ---------------------------------------------------------------------------
  // parse_bank_statement
  // ---------------------------------------------------------------------------

  /** The header search of `parse_bank_statement`. */
  method FindHeader(grid: Grid) returns (h: Option<nat>)
    ensures h == HeaderRow(grid)
  {
    var i := 0;
    while i < |grid| && !IsBankHeader(grid[i])
      invariant i <= |grid|
      invariant forall j :: 0 <= j < i ==> !IsBankHeader(grid[j])
    {
      i := i + 1;
    }
    HeaderRowIsFirst(grid, i);
    h := if i == |grid| then None else Some(i);
  }

  /** The body of the row loop once the row's fields are read: skip a row
      without a date, then emit the debit and the credit. */
  method EmitBankLine(path: string, line: BankLine) returns (produced: seq<Transaction>)
    ensures produced == LineEntries(path, line)
  {
    if line.date.None? {
      return [];
    }
    var debitEntry: seq<Transaction> := [];
    if line.debit.Some? && line.debit.value > 0 {
      debitEntry := [BankTransaction(line.date.value, line.description, -line.debit.value, path)];
    }
    var creditEntry: seq<Transaction> := [];
    if line.credit.Some? && line.credit.value > 0 {
      creditEntry := [BankTransaction(line.date.value, line.description, line.credit.value, path)];
    }
    produced := debitEntry + creditEntry;
  }

  /** The emitting half of the row loop, over the read rows in order. */
  method EmitBankLines(path: string, lines: seq<BankLine>) returns (transactions: seq<Transaction>)
    ensures transactions == BankRows(path, lines)
  {
    transactions := [];
    var idx := 0;
    while idx < |lines|
      invariant idx <= |lines|
      invariant transactions == BankRows(path, lines[..idx])
    {
      var produced := EmitBankLine(path, lines[idx]);
      assert lines[..idx + 1][..idx] == lines[..idx];
      transactions := transactions + produced;
      idx := idx + 1;
    }
    assert lines[..idx] == lines;
  }

  method ParseBankStatement(path: string, grid: Grid) returns (r: Result<seq<Transaction>, ParseError>)
    ensures r == BankStatement(path, grid)
  {
    var header := FindHeader(grid);
    if header.None? {
      return Err(BankHeaderNotFound(path));
    }
    var lines := ReadRows(ReadBankLine, grid[header.value + 1..]);
    var transactions := EmitBankLines(path, lines);
    return Ok(transactions);
  }

  // ---------------------------------------------------------------------------
  // parse_credit_card_statement
  // ---------------------------------------------------------------------------

  /** The inner cell loop of the card-number search: the first string cell
      with a card suffix, if any. */
  method FindRowCardDigits(row: Row) returns (m: Option<string>)
    ensures m == RowCardDigits(row)
  {
    var c := 0;
    while c < |row|
      invariant c <= |row|
      invariant RowCardDigits(row) == RowCardDigits(row[c..])
    {
      if row[c].Str? {
        var found := TrailingCardDigits(row[c].text);
        if found.Some? {
          return found;
        }
      }
      assert row[c..][1..] == row[c + 1..];
      c := c + 1;
    }
    return None;
  }

  /** The row loop of the card-number search: every row that carries a
      card suffix overwrites the number found so far. */
  method ScanRowsForCard(init: Option<string>, grid: Grid) returns (card: Option<string>)
    ensures card == ScanCardNumber(init, grid)
  {
    card := init;
    var r := 0;
    while r < |grid|
      invariant r <= |grid|
      invariant card == ScanCardNumber(init, grid[..r])
    {
      var m := FindRowCardDigits(grid[r]);
      if m.Some? {
        card := m;
      }
      assert grid[..r + 1][..r] == grid[..r];
      r := r + 1;
    }
    assert grid[..r] == grid;
  }

  /** The card number: the file name's first four digits, then the suffixes
      found in the cells. */
  method ExtractCardNumber(path: string, grid: Grid) returns (card: Option<string>)
    ensures card == CardNumberOf(path, grid)
  {
    var fromName := FirstFourDigits(Basename(path));
    card := ScanRowsForCard(fromName, grid);
  }

  /** One pass of the row loop: a header opens a section; inside a section a
      missing first cell is skipped, a totals or blank first cell closes the
      section, and any other row is read as a purchase. */
  method StepCardLine(path: string, card: Option<string>, inSection: bool, line: CardLine)
    returns (next: bool, produced: seq<Transaction>)
    ensures next == NextInSection(inSection, line)
    ensures produced == Emitted(path, card, inSection, line)
  {
    next, produced := inSection, [];
    if line.header {
      next := true;
      return;
    }
    if !inSection || line.firstMissing {
      return;
    }
    if line.closes {
      next := false;
      return;
    }
    if line.date.None? || line.merchant == "" || line.merchant == NOT_YET_POSTED {
      return;
    }
    var amount := if line.charged.Some? then line.charged else line.original;
    if amount.None? {
      return;
    }
    produced := [Transaction(line.date.value, line.merchant, -(Abs(amount.value) as int), ILS, CREDIT_CARD, path, card, None)];
  }

  /** The state machine half of the row loop, over the read rows in order. */
  method ScanCardLines(path: string, card: Option<string>, lines: seq<CardLine>)
    returns (transactions: seq<Transaction>)
    ensures transactions == CardRows(path, card, lines).found
  {
    transactions := [];
    var inSection := false;
    var idx := 0;
    while idx < |lines|
      invariant idx <= |lines|
      invariant CardRows(path, card, lines[..idx]) == CardScan(inSection, transactions)
    {
      var produced;
      inSection, produced := StepCardLine(path, card, inSection, lines[idx]);
      assert lines[..idx + 1][..idx] == lines[..idx];
      transactions := transactions + produced;
      idx := idx + 1;
    }
    assert lines[..idx] == lines;
  }

  method ParseCreditCardStatement(path: string, grid: Grid) returns (transactions: seq<Transaction>)
    ensures transactions == CardStatement(path, grid)
  {
    var card := ExtractCardNumber(path, grid);
    var lines := ReadRows(ReadCardLine, grid);
    transactions := ScanCardLines(path, card, lines);
  }

  // ---------------------------------------------------------------------------
  // parse_file
  // ---------------------------------------------------------------------------

  method ParseFile(path: string, grid: Grid) returns (r: Result<seq<Transaction>, ParseError>)
    ensures r == ParsedFile(path, grid)
  {
    var kind := DetectKind(path, grid);
    if kind == BankKind {
      var bank := ParseBankStatement(path, grid);
      if bank.Err? {
        return Err(CouldNotParse(path, bank.error));
      }
      return Ok(bank.value);
    }
    var card := ParseCreditCardStatement(path, grid);
    return Ok(card);
  }
}
