/** The transaction store of `storage.py`: an append-only list of records
    with duplicate detection, the list of statement files already imported,
    the filtered and date-sorted query, and the reports built on it. */
module Store {
  import opened Common
  import opened Dicts
  import opened Ordering
  import opened Aggregation

  // ---------------------------------------------------------------------------
  // add_transactions
  // ---------------------------------------------------------------------------

  /** Two records are the same entry when date, description and amount agree
      (the amounts being whole agorot, "within 0.01" is equality). */
  predicate SameEntry(a: Transaction, b: Transaction) {
    a.date == b.date && a.description == b.description && a.amount == b.amount
  }

  predicate Recorded(store: seq<Transaction>, t: Transaction) {
    exists i :: 0 <= i < |store| && SameEntry(store[i], t)
  }

  /** The store after adding `batch` one record at a time, each checked
      against everything stored so far, earlier records of the batch
      included. */
  function Merged(store: seq<Transaction>, batch: seq<Transaction>): (r: seq<Transaction>)
    ensures |store| <= |r| && r[..|store|] == store
  {
    if batch == [] then store
    else
      var m := Merged(store, batch[..|batch| - 1]);
      var t := batch[|batch| - 1];
      if Recorded(m, t) then m
      else
        assert (m + [t])[..|store|] == m[..|store|];
        m + [t]
  }

  /** Every record the merge appends comes from the batch and duplicates
      nothing stored before it. */
  lemma {:induction false} MergedFresh(store: seq<Transaction>, batch: seq<Transaction>, i: nat, j: nat)
    requires |store| <= i < |Merged(store, batch)| && j < i
    ensures Merged(store, batch)[i] in batch
    ensures !SameEntry(Merged(store, batch)[j], Merged(store, batch)[i])
  {
    var init := batch[..|batch| - 1];
    var m := Merged(store, init);
    var t := batch[|batch| - 1];
    if i < |m| {
      MergedFresh(store, init, i, j);
      assert m[i] in init;
      assert Merged(store, batch)[i] == m[i] && Merged(store, batch)[j] == m[j];
    } else {
      assert Merged(store, batch) == m + [t];
      assert !SameEntry(m[j], t);
    }
  }

  /** After the merge every record of the batch is stored. */
  lemma {:induction false} MergedCovers(store: seq<Transaction>, batch: seq<Transaction>, k: nat)
    requires k < |batch|
    ensures Recorded(Merged(store, batch), batch[k])
  {
    var init := batch[..|batch| - 1];
    var m := Merged(store, init);
    var t := batch[|batch| - 1];
    var r := Merged(store, batch);
    if k == |batch| - 1 {
      if !Recorded(m, t) {
        assert r[|m|] == t && SameEntry(r[|m|], t);
      }
    } else {
      MergedCovers(store, init, k);
      assert init[k] == batch[k];
      var i :| 0 <= i < |m| && SameEntry(m[i], batch[k]);
      assert r[i] == m[i];
    }
  }

  /** A batch whose every record is already stored changes nothing. */
  lemma {:induction false} MergedKnown(store: seq<Transaction>, batch: seq<Transaction>)
    requires forall k :: 0 <= k < |batch| ==> Recorded(store, batch[k])
    ensures Merged(store, batch) == store
  {
    if batch != [] {
      var init := batch[..|batch| - 1];
      assert forall k :: 0 <= k < |init| ==> init[k] == batch[k];
      MergedKnown(store, init);
    }
  }

  /** Adding the same batch a second time adds nothing. */
  lemma MergedIdempotent(store: seq<Transaction>, batch: seq<Transaction>)
    ensures Merged(Merged(store, batch), batch) == Merged(store, batch)
  {
    forall k | 0 <= k < |batch| ensures Recorded(Merged(store, batch), batch[k]) {
      MergedCovers(store, batch, k);
    }
    MergedKnown(Merged(store, batch), batch);
  }

  /** The records of `batch` the merge is to append, as a reference
      definition: in batch order, each record that matches nothing in the
      store and no earlier record of the batch. */
  function FirstNew(store: seq<Transaction>, batch: seq<Transaction>): seq<Transaction> {
    if batch == [] then []
    else
      var init := batch[..|batch| - 1];
      var t := batch[|batch| - 1];
      FirstNew(store, init) + (if Recorded(store, t) || Recorded(init, t) then [] else [t])
  }

  lemma RecordedAppend(a: seq<Transaction>, b: seq<Transaction>, t: Transaction)
    ensures Recorded(a + b, t) <==> Recorded(a, t) || Recorded(b, t)
  {
    if Recorded(a + b, t) {
      var i :| 0 <= i < |a + b| && SameEntry((a + b)[i], t);
      if i >= |a| {
        assert b[i - |a|] == (a + b)[i];
      }
    }
    if Recorded(a, t) {
      var i :| 0 <= i < |a| && SameEntry(a[i], t);
      assert (a + b)[i] == a[i];
    }
    if Recorded(b, t) {
      var i :| 0 <= i < |b| && SameEntry(b[i], t);
      assert (a + b)[|a| + i] == b[i];
    }
  }

  /** Records that are the same entry match the same stored records. */
  lemma RecordedSame(s: seq<Transaction>, u: Transaction, t: Transaction)
    requires SameEntry(u, t)
    ensures Recorded(s, u) <==> Recorded(s, t)
  {
  }

  /** A record matches the new records exactly when it matches the batch,
      provided it matches nothing in the store. */
  lemma {:induction false} FirstNewRecorded(store: seq<Transaction>, batch: seq<Transaction>, t: Transaction)
    ensures Recorded(FirstNew(store, batch), t) ==> Recorded(batch, t)
    ensures !Recorded(store, t) && Recorded(batch, t) ==> Recorded(FirstNew(store, batch), t)
  {
    if batch != [] {
      var init := batch[..|batch| - 1];
      var u := batch[|batch| - 1];
      var f0 := FirstNew(store, init);
      var extra := if Recorded(store, u) || Recorded(init, u) then [] else [u];
      FirstNewRecorded(store, init, t);
      RecordedAppend(init, [u], t);
      assert init + [u] == batch;
      RecordedAppend(f0, extra, t);
      if SameEntry(u, t) {
        RecordedSame(store, u, t);
        RecordedSame(init, u, t);
      }
    }
  }

  /** The merge appends exactly the batch's first new occurrences, in batch
      order. */
  lemma {:induction false} MergedAppendsFirstNew(store: seq<Transaction>, batch: seq<Transaction>)
    ensures Merged(store, batch) == store + FirstNew(store, batch)
  {
    if batch == [] {
      assert store + [] == store;
    } else {
      var init := batch[..|batch| - 1];
      var t := batch[|batch| - 1];
      var f0 := FirstNew(store, init);
      MergedAppendsFirstNew(store, init);
      RecordedAppend(store, f0, t);
      FirstNewRecorded(store, init, t);
      assert store + (f0 + [t]) == (store + f0) + [t];
    }
  }

  /** Merging records with valid dates into a store of such records keeps
      every date valid. */
  lemma {:induction false} MergedValid(store: seq<Transaction>, batch: seq<Transaction>)
    requires AllValid(store) && AllValid(batch)
    ensures AllValid(Merged(store, batch))
  {
    if batch != [] {
      var init := batch[..|batch| - 1];
      assert forall k :: 0 <= k < |init| ==> init[k] == batch[k];
      MergedValid(store, init);
    }
  }

  // ---------------------------------------------------------------------------
  // Processed files
  // ---------------------------------------------------------------------------

  predicate NoDuplicates(s: seq<string>) {
    forall i, j :: 0 <= i < j < |s| ==> s[i] != s[j]
  }

  /** The file list after marking `path`: its base name is appended unless
      already listed. */
  function Marked(files: seq<string>, path: string): seq<string> {
    if Basename(path) in files then files else files + [Basename(path)]
  }

  /** Marking keeps the list free of duplicates, keeps every name, is
      idempotent, and lists the name of every path with the same base name. */
  lemma MarkedSpec(files: seq<string>, path: string, other: string)
    ensures NoDuplicates(files) ==> NoDuplicates(Marked(files, path))
    ensures forall f :: f in files ==> f in Marked(files, path)
    ensures Marked(Marked(files, path), path) == Marked(files, path)
    ensures Basename(other) == Basename(path) ==> Basename(other) in Marked(files, path)
  {
  }

  // ---------------------------------------------------------------------------
  // get_transactions
  // ---------------------------------------------------------------------------

  /** Python's truth value of an optional string: `None` and `''` are false. */
  predicate Given(s: Option<string>) {
    s.Some? && s.value != []
  }

  /** The filters of `get_transactions`; an absent one passes everything. */
  datatype Query = Query(start: Option<Date>, end: Option<Date>, category: Option<string>, source: Option<string>)

  /** Both date bounds are inclusive. */
  predicate Keeps(q: Query, t: Transaction) {
    (q.start.None? || AtMost(q.start.value, t.date)) &&
    (q.end.None? || AtMost(t.date, q.end.value)) &&
    (!Given(q.category) || t.category == q.category) &&
    (!Given(q.source) || t.source == q.source.value)
  }

  /** The records that pass the filters, in stored order. */
  function Selected(ts: seq<Transaction>, q: Query): seq<Transaction> {
    if ts == [] then []
    else Selected(ts[..|ts| - 1], q) + if Keeps(q, ts[|ts| - 1]) then [ts[|ts| - 1]] else []
  }

  lemma {:induction false} SelectedCount(ts: seq<Transaction>, q: Query, t: Transaction)
    ensures multiset(Selected(ts, q))[t] == if Keeps(q, t) then multiset(ts)[t] else 0
  {
    if ts != [] {
      var init := ts[..|ts| - 1];
      SelectedCount(init, q, t);
      assert ts == init + [ts[|ts| - 1]];
    }
  }

  /** The answer of `get_transactions`: the selection, stably sorted by date. */
  function Answer(ts: seq<Transaction>, q: Query): seq<Transaction> {
    SortByDate(Selected(ts, q))
  }

  /** `get_transactions` returns exactly the stored records that pass every
      filter, as often as they are stored, sorted by date, records of the
      same date in stored order. */
  lemma AnswerSpec(ts: seq<Transaction>, q: Query, t: Transaction, d: Date)
    ensures SortedByDate(Answer(ts, q))
    ensures multiset(Answer(ts, q))[t] == if Keeps(q, t) then multiset(ts)[t] else 0
    ensures OnDate(Answer(ts, q), d) == OnDate(Selected(ts, q), d)
  {
    SortByDateSorted(Selected(ts, q));
    SelectedCount(ts, q, t);
    SortByDateStable(Selected(ts, q), d);
  }

  /** The query of `get_monthly_summary`. */
  function MonthQuery(w: (Date, Date)): Query {
    Query(Some(w.0), Some(w.1), None, None)
  }

  /** The month's selection holds the records dated in the month and, since
      the end bound is inclusive, those dated on the first of the next
      month. */
  lemma MonthSelection(year: int, month: int, t: Transaction)
    requires MonthWindow(year, month).Ok? && ValidDate(t.date)
    ensures var w := MonthWindow(year, month).value;
      Keeps(MonthQuery(w), t) <==> (t.date.year == year && t.date.month == month) || t.date == w.1
  {
    MonthWindowCovers(year, month, t.date);
    BeforeTotal(t.date, MonthWindow(year, month).value.1);
  }

  // ---------------------------------------------------------------------------
  // get_months
  // ---------------------------------------------------------------------------

  predicate AllValid(ts: seq<Transaction>) {
    forall i :: 0 <= i < |ts| ==> ValidDate(ts[i].date)
  }

  /** `date.strftime('%Y-%m')`. */
  function MonthKey(d: Date): string
    requires ValidDate(d)
  {
    Pad4(d.year) + "-" + Pad2(d.month)
  }

  /** The month keys of the records. */
  function MonthsOf(ts: seq<Transaction>): set<string>
    requires AllValid(ts)
  {
    if ts == [] then {} else MonthsOf(ts[..|ts| - 1]) + {MonthKey(ts[|ts| - 1].date)}
  }

  lemma {:induction false} MonthsOfMember(ts: seq<Transaction>, m: string)
    requires AllValid(ts)
    ensures m in MonthsOf(ts) <==> exists i :: 0 <= i < |ts| && MonthKey(ts[i].date) == m
  {
    if ts != [] {
      var init := ts[..|ts| - 1];
      MonthsOfMember(init, m);
      assert forall i :: 0 <= i < |init| ==> init[i] == ts[i];
    }
  }

  // ---------------------------------------------------------------------------
  // The store
  // ---------------------------------------------------------------------------

  class Storage {
    /** The stored records, oldest first. */
    var transactions: seq<Transaction>
    /** The base names of the statement files already imported. */
    var processedFiles: seq<string>

    /** Every stored date is one a `datetime` can hold. */
    ghost predicate Valid()
      reads this
    {
      AllValid(transactions)
    }

    /** The store as `_load` leaves it: the lists saved earlier, or empty
        ones on a first run. */
    constructor(loaded: seq<Transaction>, processed: seq<string>)
      requires AllValid(loaded)
      ensures Valid()
      ensures transactions == loaded && processedFiles == processed
    {
      transactions := loaded;
      processedFiles := processed;
    }

    /** `is_file_processed`. */
    function IsFileProcessed(path: string): bool
      reads this
    {
      Basename(path) in processedFiles
    }

    /** `mark_file_processed`. */
    method MarkFileProcessed(path: string)
      requires Valid()
      modifies this
      ensures Valid()
      ensures processedFiles == Marked(old(processedFiles), path)
      ensures transactions == old(transactions)
      ensures IsFileProcessed(path)
    {
      var name := Basename(path);
      if name !in processedFiles {
        processedFiles := processedFiles + [name];
      }
    }

    /** `add_transactions`: appends each record of the batch not already
        stored and returns how many were appended; a given source file is
        then marked as processed. */
    method AddTransactions(batch: seq<Transaction>, sourceFile: Option<string>) returns (added: nat)
      requires Valid() && AllValid(batch)
      modifies this
      ensures Valid()
      ensures transactions == Merged(old(transactions), batch)
      ensures added == |transactions| - |old(transactions)|
      ensures processedFiles == if Given(sourceFile) then Marked(old(processedFiles), sourceFile.value) else old(processedFiles)
    {
      ghost var store := transactions;
      added := 0;
      var i := 0;
      while i < |batch|
        invariant i <= |batch|
        invariant transactions == Merged(store, batch[..i])
        invariant added == |transactions| - |store|
        invariant processedFiles == old(processedFiles)
      {
        var t := batch[i];
        var duplicate := false;
        var j := 0;
        while j < |transactions|
          invariant j <= |transactions|
          invariant !duplicate ==> forall k :: 0 <= k < j ==> !SameEntry(transactions[k], t)
          invariant duplicate ==> Recorded(transactions, t)
        {
          if SameEntry(transactions[j], t) {
            duplicate := true;
            break;
          }
          j := j + 1;
        }
        if !duplicate {
          transactions := transactions + [t];
          added := added + 1;
        }
        assert batch[..i + 1][..i] == batch[..i];
        i := i + 1;
      }
      assert batch[..i] == batch;
      MergedValid(store, batch);
      if Given(sourceFile) {
        MarkFileProcessed(sourceFile.value);
      }
    }

    /** `get_transactions`. */
    method GetTransactions(start: Option<Date>, end: Option<Date>, category: Option<string>, source: Option<string>)
      returns (result: seq<Transaction>)
      ensures result == Answer(transactions, Query(start, end, category, source))
    {
      ghost var q := Query(start, end, category, source);
      var selected: seq<Transaction> := [];
      var i := 0;
      while i < |transactions|
        invariant i <= |transactions|
        invariant selected == Selected(transactions[..i], q)
      {
        var t := transactions[i];
        assert transactions[..i + 1] == transactions[..i] + [t];
        i := i + 1;
        if start.Some? && Before(t.date, start.value) {
          continue;
        }
        if end.Some? && Before(end.value, t.date) {
          continue;
        }
        if Given(category) && t.category != category {
          continue;
        }
        if Given(source) && t.source != source.value {
          continue;
        }
        selected := selected + [t];
      }
      assert transactions[..i] == transactions;
      result := SortByDate(selected);
    }

    /** `get_months`: the distinct month keys of the stored records, in
        ascending order. */
    method GetMonths() returns (months: seq<string>)
      requires Valid()
      ensures StrictlyAscending(months)
      ensures forall m :: m in months <==> m in MonthsOf(transactions)
    {
      var seen: set<string> := {};
      var i := 0;
      while i < |transactions|
        invariant i <= |transactions|
        invariant seen == MonthsOf(transactions[..i])
      {
        assert transactions[..i + 1][..i] == transactions[..i];
        seen := seen + {MonthKey(transactions[i].date)};
        i := i + 1;
      }
      assert transactions[..i] == transactions;
      months := [];
      var rest := seen;
      while rest != {}
        invariant StrictlyAscending(months)
        invariant forall m :: m in seen <==> m in months || m in rest
        decreases |rest|
      {
        var m :| m in rest;
        InsertStringAscending(months, m);
        months := InsertString(months, m);
        rest := rest - {m};
      }
    }

    /** `get_summary_by_category`: the category totals of the records in
        the date range. */
    method GetSummaryByCategory(start: Option<Date>, end: Option<Date>) returns (summary: Dict<string, int>)
      ensures summary == Tally(Answer(transactions, Query(start, end, None, None)))
    {
      var ts := GetTransactions(start, end, None, None);
      summary := TallyCategories(ts);
    }

    /** `get_monthly_summary`. */
    method GetMonthlySummary(year: int, month: int, excludeTransfers: bool) returns (r: Result<MonthlySummary, DateError>)
      ensures r == match MonthWindow(year, month)
        case Err(e) => Err(e)
        case Ok(w) => Ok(Summarize(year, month, excludeTransfers, Answer(transactions, MonthQuery(w))))
    {
      if !(1 <= year <= 9999) {
        return Err(YearOutOfRange);
      }
      if !(1 <= month <= 12) {
        return Err(MonthOutOfRange);
      }
      var start := Date(year, month, 1);
      var end;
      if month == 12 {
        if year == 9999 {
          return Err(YearOutOfRange);
        }
        end := Date(year + 1, 1, 1);
      } else {
        end := Date(year, month + 1, 1);
      }
      var ts := GetTransactions(Some(start), Some(end), None, None);
      var summary := SummarizeMonth(year, month, excludeTransfers, ts);
      r := Ok(summary);
    }

    /** `clear_all`. */
    method ClearAll()
      modifies this
      ensures Valid()
      ensures transactions == [] && processedFiles == []
    {
      transactions := [];
      processedFiles := [];
    }
  }

  /** The body of `get_monthly_summary` once the month's records `ts` are
      selected: they are split into income, expenses and excluded card
      payments, then totalled and grouped by category. */
  method SummarizeMonth(year: int, month: int, excludeTransfers: bool, ts: seq<Transaction>) returns (r: MonthlySummary)
    ensures r == Summarize(year, month, excludeTransfers, ts)
  {
    var income, expenses, excluded := SplitMonth(excludeTransfers, ts);
    var expenseGroups := GroupByCategory(expenses, Magnitude);
    var incomeGroups := GroupByCategory(income, Amount);
    var totalExpenses := SumBy(expenses, Magnitude);
    var totalIncome := SumBy(income, Amount);
    r := MonthlySummary(year, month, totalExpenses, totalIncome, totalIncome - totalExpenses,
                        expenseGroups, incomeGroups, |ts|, excluded, SumBy(excluded, Magnitude));
  }

  /** The partition loop of `get_monthly_summary`: card settlements are set
      aside when asked for and both sources are present; of the rest, a
      positive amount is income and anything else an expense. */
  method SplitMonth(excludeTransfers: bool, ts: seq<Transaction>)
    returns (income: seq<Transaction>, expenses: seq<Transaction>, excluded: seq<Transaction>)
    ensures var drop := DropsTransfers(ts, excludeTransfers);
      && income == InBucket(ts, drop, Income)
      && expenses == InBucket(ts, drop, Expense)
      && excluded == InBucket(ts, drop, Excluded)
  {
    var hasBank := HasSource(ts, BANK);
    var hasCard := HasSource(ts, CREDIT_CARD);
    ghost var drop := DropsTransfers(ts, excludeTransfers);
    income, expenses, excluded := [], [], [];
    var i := 0;
    while i < |ts|
      invariant i <= |ts|
      invariant income == InBucket(ts[..i], drop, Income)
      invariant expenses == InBucket(ts[..i], drop, Expense)
      invariant excluded == InBucket(ts[..i], drop, Excluded)
    {
      var t := ts[i];
      assert ts[..i + 1][..i] == ts[..i];
      i := i + 1;
      if excludeTransfers && hasBank && hasCard && IsCreditCardTransfer(t) {
        excluded := excluded + [t];
        continue;
      }
      if t.amount > 0 {
        income := income + [t];
      } else {
        expenses := expenses + [t];
      }
    }
    assert ts[..i] == ts;
  }

  /** Adds `x` to the total of `cat`, the key being set to zero first when
      absent. */
  method AddToTotal(d: Dict<string, int>, cat: string, x: int) returns (r: Dict<string, int>)
    requires DistinctKeys(d)
    ensures r == Assign(d, cat, Lookup(d, cat).GetOr(0) + x)
  {
    r := d;
    if !HasKey(r, cat) {
      r := Assign(r, cat, 0);
      AssignLookup(d, cat, 0, cat);
      AssignAgain(d, cat, 0, x);
    }
    r := Assign(r, cat, Lookup(r, cat).GetOr(0) + x);
  }

  /** The loop of `get_summary_by_category`. */
  method TallyCategories(ts: seq<Transaction>) returns (summary: Dict<string, int>)
    ensures summary == Tally(ts)
  {
    summary := [];
    var i := 0;
    while i < |ts|
      invariant i <= |ts|
      invariant summary == Tally(ts[..i])
    {
      TallyDistinct(ts[..i]);
      summary := AddToTotal(summary, CategoryKey(ts[i]), ts[i].amount);
      assert ts[..i + 1][..i] == ts[..i];
      i := i + 1;
    }
    assert ts[..i] == ts;
  }

  /** Adds `t` to its category's group, creating the group empty on first
      use. */
  method AddToGroup(groups: Dict<string, CategoryGroup>, cat: string, t: Transaction, x: int)
    returns (r: Dict<string, CategoryGroup>)
    requires DistinctKeys(groups)
    ensures var g := Lookup(groups, cat).GetOr(CategoryGroup(0, []));
      r == Assign(groups, cat, CategoryGroup(g.total + x, g.members + [t]))
  {
    r := groups;
    if !HasKey(r, cat) {
      r := Assign(r, cat, CategoryGroup(0, []));
      AssignLookup(groups, cat, CategoryGroup(0, []), cat);
      AssignAgain(groups, cat, CategoryGroup(0, []), CategoryGroup(x, [t]));
    }
    var current := Lookup(r, cat).GetOr(CategoryGroup(0, []));
    r := Assign(r, cat, CategoryGroup(current.total + x, current.members + [t]));
  }

  /** The category loops of `get_monthly_summary`. */
  method GroupByCategory(ts: seq<Transaction>, w: Transaction -> int) returns (groups: Dict<string, CategoryGroup>)
    ensures groups == Group(ts, w)
  {
    groups := [];
    var i := 0;
    while i < |ts|
      invariant i <= |ts|
      invariant groups == Group(ts[..i], w)
    {
      GroupDistinct(ts[..i], w);
      groups := AddToGroup(groups, CategoryKey(ts[i]), ts[i], w(ts[i]));
      assert ts[..i + 1][..i] == ts[..i];
      i := i + 1;
    }
    assert ts[..i] == ts;
  }
}
