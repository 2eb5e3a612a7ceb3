/** The aggregations behind the store's reports: per-category tallies
    (`get_summary_by_category`), per-category groups with totals, the
    detection of bank-side payments to card issuers, and the monthly summary
    built from them (`get_monthly_summary`). */
module Aggregation {
  import opened Common
  import opened Dicts

  /** `t.category or 'אחר'`: a missing or empty category counts as `'אחר'`. */
  function CategoryKey(t: Transaction): (c: string)
    ensures c != []
    ensures t.category.Some? && t.category.value != [] ==> c == t.category.value
    ensures t.category.None? || t.category.value == [] ==> c == OTHER
  {
    assert |OTHER| == 3;
    if t.category.Some? && t.category.value != [] then t.category.value else OTHER
  }

  function Amount(t: Transaction): int {
    t.amount
  }

  function Magnitude(t: Transaction): int {
    Abs(t.amount)
  }

  /** `sum(w(t) for t in ts)`. */
  function SumBy(ts: seq<Transaction>, w: Transaction -> int): int {
    if ts == [] then 0 else SumBy(ts[..|ts| - 1], w) + w(ts[|ts| - 1])
  }

  lemma {:induction false} SumByNonNegative(ts: seq<Transaction>, w: Transaction -> int)
    requires forall i :: 0 <= i < |ts| ==> w(ts[i]) >= 0
    ensures SumBy(ts, w) >= 0
  {
    if ts != [] {
      SumByNonNegative(ts[..|ts| - 1], w);
    }
  }

  /** The transactions whose category key is `c`, in order. */
  function OfCategory(ts: seq<Transaction>, c: string): seq<Transaction> {
    if ts == [] then []
    else OfCategory(ts[..|ts| - 1], c) + if CategoryKey(ts[|ts| - 1]) == c then [ts[|ts| - 1]] else []
  }

  lemma {:induction false} OfCategoryEmpty(ts: seq<Transaction>, c: string)
    ensures OfCategory(ts, c) == [] <==> forall i :: 0 <= i < |ts| ==> CategoryKey(ts[i]) != c
  {
    if ts != [] {
      var init := ts[..|ts| - 1];
      OfCategoryEmpty(init, c);
      assert forall i :: 0 <= i < |init| ==> init[i] == ts[i];
    }
  }

  // ---------------------------------------------------------------------------
  // get_summary_by_category
  // ---------------------------------------------------------------------------

  /** The category totals of `get_summary_by_category`, keyed in order of
      first appearance. */
  function Tally(ts: seq<Transaction>): Dict<string, int> {
    if ts == [] then []
    else
      var m := Tally(ts[..|ts| - 1]);
      var t := ts[|ts| - 1];
      Assign(m, CategoryKey(t), Lookup(m, CategoryKey(t)).GetOr(0) + t.amount)
  }

  function Plain(x: int): int {
    x
  }

  lemma {:induction false} TallyDistinct(ts: seq<Transaction>)
    ensures DistinctKeys(Tally(ts))
  {
    if ts != [] {
      var m := Tally(ts[..|ts| - 1]);
      var t := ts[|ts| - 1];
      TallyDistinct(ts[..|ts| - 1]);
      AssignSpec(m, CategoryKey(t), Lookup(m, CategoryKey(t)).GetOr(0) + t.amount);
    }
  }

  /** One more record adds its amount to its own category's total only. */
  lemma TallyStep(init: seq<Transaction>, t: Transaction, c: string)
    ensures Lookup(Tally(init + [t]), c) ==
      if CategoryKey(t) == c then Some(Lookup(Tally(init), c).GetOr(0) + t.amount) else Lookup(Tally(init), c)
  {
    var ts := init + [t];
    assert ts[..|ts| - 1] == init && ts[|ts| - 1] == t;
    var m, k := Tally(init), CategoryKey(t);
    var v := Lookup(m, k).GetOr(0) + t.amount;
    assert Tally(ts) == Assign(m, k, v);
    TallyDistinct(init);
    AssignLookup(m, k, v, c);
  }

  lemma OfCategoryStep(ts: seq<Transaction>, c: string)
    requires ts != []
    ensures var before, t := OfCategory(ts[..|ts| - 1], c), ts[|ts| - 1];
      && (CategoryKey(t) == c ==>
            OfCategory(ts, c) == before + [t] &&
            SumBy(OfCategory(ts, c), Amount) == SumBy(before, Amount) + t.amount)
      && (CategoryKey(t) != c ==> OfCategory(ts, c) == before)
  {
    var before, t := OfCategory(ts[..|ts| - 1], c), ts[|ts| - 1];
    if CategoryKey(t) == c {
      var after := before + [t];
      assert after[..|after| - 1] == before;
    }
  }

  /** A category has a total exactly when some transaction falls in it, and
      the total is the sum of those transactions' amounts. */
  lemma {:induction false} TallyLookup(ts: seq<Transaction>, c: string)
    ensures Lookup(Tally(ts), c) ==
      if OfCategory(ts, c) == [] then None else Some(SumBy(OfCategory(ts, c), Amount))
  {
    if ts != [] {
      var init := ts[..|ts| - 1];
      TallyLookup(init, c);
      assert ts == init + [ts[|ts| - 1]];
      TallyStep(init, ts[|ts| - 1], c);
      OfCategoryStep(ts, c);
    }
  }

  /** The category totals add up to the total of all amounts. */
  lemma {:induction false} TallySum(ts: seq<Transaction>)
    ensures ValuesSum(Tally(ts), Plain) == SumBy(ts, Amount)
  {
    if ts != [] {
      var m := Tally(ts[..|ts| - 1]);
      var t := ts[|ts| - 1];
      TallySum(ts[..|ts| - 1]);
      AssignSum(m, CategoryKey(t), Lookup(m, CategoryKey(t)).GetOr(0) + t.amount, Plain);
    }
  }

  // ---------------------------------------------------------------------------
  // Category groups of the monthly summary
  // ---------------------------------------------------------------------------

  /** `{'total': ..., 'transactions': [...]}`. */
  datatype CategoryGroup = CategoryGroup(total: int, members: seq<Transaction>)

  function GroupTotal(g: CategoryGroup): int {
    g.total
  }

  /** The per-category groups of `ts` weighted by `w`, keyed in order of
      first appearance. */
  function Group(ts: seq<Transaction>, w: Transaction -> int): Dict<string, CategoryGroup> {
    if ts == [] then []
    else
      var m := Group(ts[..|ts| - 1], w);
      var t := ts[|ts| - 1];
      var g := Lookup(m, CategoryKey(t)).GetOr(CategoryGroup(0, []));
      Assign(m, CategoryKey(t), CategoryGroup(g.total + w(t), g.members + [t]))
  }

  lemma {:induction false} GroupDistinct(ts: seq<Transaction>, w: Transaction -> int)
    ensures DistinctKeys(Group(ts, w))
  {
    if ts != [] {
      var m := Group(ts[..|ts| - 1], w);
      var t := ts[|ts| - 1];
      var g := Lookup(m, CategoryKey(t)).GetOr(CategoryGroup(0, []));
      GroupDistinct(ts[..|ts| - 1], w);
      AssignSpec(m, CategoryKey(t), CategoryGroup(g.total + w(t), g.members + [t]));
    }
  }

  /** A category has a group exactly when some transaction falls in it; the
      group lists those transactions in order, and its total is their
      weight. */
  lemma {:induction false} GroupLookup(ts: seq<Transaction>, w: Transaction -> int, c: string)
    ensures Lookup(Group(ts, w), c) ==
      if OfCategory(ts, c) == [] then None
      else Some(CategoryGroup(SumBy(OfCategory(ts, c), w), OfCategory(ts, c)))
  {
    if ts != [] {
      var init := ts[..|ts| - 1];
      var m := Group(init, w);
      var t := ts[|ts| - 1];
      var g := Lookup(m, CategoryKey(t)).GetOr(CategoryGroup(0, []));
      var before := OfCategory(init, c);
      var v := CategoryGroup(g.total + w(t), g.members + [t]);
      assert Group(ts, w) == Assign(m, CategoryKey(t), v);
      GroupLookup(init, w, c);
      GroupDistinct(init, w);
      AssignLookup(m, CategoryKey(t), v, c);
      if CategoryKey(t) == c {
        var after := before + [t];
        assert OfCategory(ts, c) == after;
        assert after[..|after| - 1] == before;
        assert SumBy(after, w) == SumBy(before, w) + w(t);
      } else {
        assert OfCategory(ts, c) == before;
      }
    }
  }

  /** The group totals add up to the weight of all transactions. */
  lemma {:induction false} GroupSum(ts: seq<Transaction>, w: Transaction -> int)
    ensures ValuesSum(Group(ts, w), GroupTotal) == SumBy(ts, w)
  {
    if ts != [] {
      var m := Group(ts[..|ts| - 1], w);
      var t := ts[|ts| - 1];
      var g := Lookup(m, CategoryKey(t)).GetOr(CategoryGroup(0, []));
      GroupSum(ts[..|ts| - 1], w);
      AssignSum(m, CategoryKey(t), CategoryGroup(g.total + w(t), g.members + [t]), GroupTotal);
    }
  }

  // ---------------------------------------------------------------------------
  // _is_credit_card_transfer
  // ---------------------------------------------------------------------------

  /** Card issuers as they appear in bank descriptions. */
  const ISSUER_KEYWORDS: seq<string> :=
    ["ישראכרט", "מקס איט", "כאל", "לאומי קארד", "אמריקן אקספרס", "דיינרס", "visa cal", "mastercard"]

  /** Whether `lowered` contains a keyword, as given or lower-cased. */
  function MentionsIssuer(keywords: seq<string>, lowered: string): bool {
    keywords != [] &&
    (Contains(lowered, keywords[0]) || Contains(lowered, Lower(keywords[0])) || MentionsIssuer(keywords[1..], lowered))
  }

  /** `_is_credit_card_transfer`: a bank transaction whose lower-cased
      description names a card issuer. */
  function IsCreditCardTransfer(t: Transaction): bool {
    t.source == BANK && MentionsIssuer(ISSUER_KEYWORDS, Lower(t.description))
  }

  lemma LowerKeeps(s: string)
    requires forall i :: 0 <= i < |s| ==> !('A' <= s[i] <= 'Z')
    ensures Lower(s) == s
  {
  }

  /** The keywords are already lower case, so the second test adds nothing. */
  lemma IssuerKeywordsLower(i: nat)
    requires i < |ISSUER_KEYWORDS|
    ensures Lower(ISSUER_KEYWORDS[i]) == ISSUER_KEYWORDS[i]
  {
    LowerKeeps(ISSUER_KEYWORDS[i]);
  }

  lemma {:induction false} MentionsIssuerSpec(keywords: seq<string>, lowered: string)
    requires forall i :: 0 <= i < |keywords| ==> Lower(keywords[i]) == keywords[i]
    ensures MentionsIssuer(keywords, lowered) <==> exists i :: 0 <= i < |keywords| && Contains(lowered, keywords[i])
  {
    if keywords != [] {
      MentionsIssuerSpec(keywords[1..], lowered);
      if exists i :: 0 <= i < |keywords| && Contains(lowered, keywords[i]) {
        var i :| 0 <= i < |keywords| && Contains(lowered, keywords[i]);
        if i > 0 {
          assert keywords[1..][i - 1] == keywords[i];
        }
      }
    }
  }

  /** A transaction is a card-issuer payment exactly when it comes from the
      bank and its lower-cased description contains an issuer keyword. */
  lemma IsCreditCardTransferSpec(t: Transaction)
    ensures IsCreditCardTransfer(t) <==>
      t.source == BANK && exists i :: 0 <= i < |ISSUER_KEYWORDS| && Contains(Lower(t.description), ISSUER_KEYWORDS[i])
  {
    forall i | 0 <= i < |ISSUER_KEYWORDS| ensures Lower(ISSUER_KEYWORDS[i]) == ISSUER_KEYWORDS[i] {
      IssuerKeywordsLower(i);
    }
    MentionsIssuerSpec(ISSUER_KEYWORDS, Lower(t.description));
  }

  // ---------------------------------------------------------------------------
  // get_monthly_summary
  // ---------------------------------------------------------------------------

  /** Where the monthly summary puts a transaction. */
  datatype Bucket = Excluded | Income | Expense

  /** A dropped card payment is excluded; otherwise a positive amount is
      income and anything else, zero included, an expense. */
  function BucketOf(t: Transaction, dropTransfers: bool): Bucket {
    if dropTransfers && IsCreditCardTransfer(t) then Excluded
    else if t.amount > 0 then Income
    else Expense
  }

  /** The transactions of `ts` in bucket `b`, in order. */
  function InBucket(ts: seq<Transaction>, dropTransfers: bool, b: Bucket): seq<Transaction> {
    if ts == [] then []
    else InBucket(ts[..|ts| - 1], dropTransfers, b) + if BucketOf(ts[|ts| - 1], dropTransfers) == b then [ts[|ts| - 1]] else []
  }

  lemma {:induction false} InBucketMember(ts: seq<Transaction>, dropTransfers: bool, b: Bucket, t: Transaction)
    ensures t in InBucket(ts, dropTransfers, b) <==> t in ts && BucketOf(t, dropTransfers) == b
  {
    if ts != [] {
      var init := ts[..|ts| - 1];
      InBucketMember(init, dropTransfers, b, t);
      assert ts == init + [ts[|ts| - 1]];
    }
  }

  /** Every transaction lands in exactly one bucket, so the three buckets
      together are the selection. */
  lemma {:induction false} BucketsPartition(ts: seq<Transaction>, dropTransfers: bool)
    ensures multiset(InBucket(ts, dropTransfers, Excluded)) + multiset(InBucket(ts, dropTransfers, Income)) +
            multiset(InBucket(ts, dropTransfers, Expense)) == multiset(ts)
  {
    if ts != [] {
      var init := ts[..|ts| - 1];
      var t := ts[|ts| - 1];
      BucketsPartition(init, dropTransfers);
      MultisetSplit(ts);
      var x0 := multiset(InBucket(init, dropTransfers, Excluded));
      var i0 := multiset(InBucket(init, dropTransfers, Income));
      var e0 := multiset(InBucket(init, dropTransfers, Expense));
      var x := multiset(InBucket(ts, dropTransfers, Excluded));
      var i := multiset(InBucket(ts, dropTransfers, Income));
      var e := multiset(InBucket(ts, dropTransfers, Expense));
      var one := multiset{t};
      match BucketOf(t, dropTransfers)
      case Excluded =>
        assert x == x0 + one && i == i0 && e == e0;
      case Income =>
        assert x == x0 && i == i0 + one && e == e0;
      case Expense =>
        assert x == x0 && i == i0 && e == e0 + one;
    }
  }

  lemma MultisetSplit(ts: seq<Transaction>)
    requires ts != []
    ensures multiset(ts) == multiset(ts[..|ts| - 1]) + multiset{ts[|ts| - 1]}
  {
    assert ts == ts[..|ts| - 1] + [ts[|ts| - 1]];
  }

  /** `any(t.source == source for t in ts)`. */
  predicate HasSource(ts: seq<Transaction>, source: string) {
    exists i :: 0 <= i < |ts| && ts[i].source == source
  }

  datatype MonthlySummary = MonthlySummary(
    year: int,
    month: int,
    totalExpenses: int,
    totalIncome: int,
    balance: int,
    expenseByCategory: Dict<string, CategoryGroup>,
    incomeByCategory: Dict<string, CategoryGroup>,
    transactionCount: nat,
    excludedTransfers: seq<Transaction>,
    totalExcluded: int)

  /** Card payments are dropped only when asked and when the month has both
      bank and card transactions. */
  predicate DropsTransfers(selected: seq<Transaction>, excludeTransfers: bool) {
    excludeTransfers && HasSource(selected, BANK) && HasSource(selected, CREDIT_CARD)
  }

  /** The summary of the month's transactions `selected`. */
  function Summarize(year: int, month: int, excludeTransfers: bool, selected: seq<Transaction>): MonthlySummary {
    var drop := DropsTransfers(selected, excludeTransfers);
    var income := InBucket(selected, drop, Income);
    var expenses := InBucket(selected, drop, Expense);
    var excluded := InBucket(selected, drop, Excluded);
    MonthlySummary(
      year, month,
      SumBy(expenses, Magnitude), SumBy(income, Amount),
      SumBy(income, Amount) - SumBy(expenses, Magnitude),
      Group(expenses, Magnitude), Group(income, Amount),
      |selected|, excluded, SumBy(excluded, Magnitude))
  }

  /** The balance is income less expenses; all totals are non-negative; the
      category totals of each side add up to that side's total; the count is
      taken before exclusion. */
  lemma SummaryTotals(year: int, month: int, excludeTransfers: bool, selected: seq<Transaction>)
    ensures var r := Summarize(year, month, excludeTransfers, selected);
      && r.balance == r.totalIncome - r.totalExpenses
      && r.totalIncome >= 0 && r.totalExpenses >= 0 && r.totalExcluded >= 0
      && ValuesSum(r.expenseByCategory, GroupTotal) == r.totalExpenses
      && ValuesSum(r.incomeByCategory, GroupTotal) == r.totalIncome
      && r.transactionCount == |selected|
  {
    var drop := DropsTransfers(selected, excludeTransfers);
    var income := InBucket(selected, drop, Income);
    var expenses := InBucket(selected, drop, Expense);
    var excluded := InBucket(selected, drop, Excluded);
    forall i | 0 <= i < |income| ensures income[i].amount > 0 {
      InBucketMember(selected, drop, Income, income[i]);
    }
    SumByNonNegative(income, Amount);
    SumByNonNegative(expenses, Magnitude);
    SumByNonNegative(excluded, Magnitude);
    GroupSum(expenses, Magnitude);
    GroupSum(income, Amount);
  }

  /** The excluded transfers are exactly the bank-side issuer payments of a
      month that has both sources, when exclusion is asked for. */
  lemma SummaryExcluded(year: int, month: int, excludeTransfers: bool, selected: seq<Transaction>, t: Transaction)
    requires t in selected
    ensures t in Summarize(year, month, excludeTransfers, selected).excludedTransfers <==>
      DropsTransfers(selected, excludeTransfers) && IsCreditCardTransfer(t)
  {
    InBucketMember(selected, DropsTransfers(selected, excludeTransfers), Excluded, t);
  }

  // ---------------------------------------------------------------------------
  // The month window
  // ---------------------------------------------------------------------------

  /** The errors `datetime(year, month, 1)` raises. */
  datatype DateError = YearOutOfRange | MonthOutOfRange

  /** The first of the month and the first of the next month, December
      rolling over to January; `datetime` refuses years outside 1..9999 and
      months outside 1..12, the year being checked first. */
  function MonthWindow(year: int, month: int): Result<(Date, Date), DateError> {
    if !(1 <= year <= 9999) then Err(YearOutOfRange)
    else if !(1 <= month <= 12) then Err(MonthOutOfRange)
    else if month == 12 then
      if year == 9999 then Err(YearOutOfRange) else Ok((Date(year, 12, 1), Date(year + 1, 1, 1)))
    else Ok((Date(year, month, 1), Date(year, month + 1, 1)))
  }

  /** The window exists for every representable month except December 9999,
      whose successor is out of range. */
  lemma MonthWindowDefined(year: int, month: int)
    ensures MonthWindow(year, month).Ok? <==> 1 <= year <= 9999 && 1 <= month <= 12 && !(year == 9999 && month == 12)
    ensures MonthWindow(year, month).Ok? ==>
      ValidDate(MonthWindow(year, month).value.0) && ValidDate(MonthWindow(year, month).value.1)
  {
  }

  /** A date lies in the month exactly when it is on or after the window's
      start and strictly before its end. */
  lemma MonthWindowCovers(year: int, month: int, d: Date)
    requires MonthWindow(year, month).Ok? && ValidDate(d)
    ensures var w := MonthWindow(year, month).value;
      (d.year == year && d.month == month) <==> (AtMost(w.0, d) && Before(d, w.1))
  {
  }
}
