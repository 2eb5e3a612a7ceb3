/** The categorization engine of src/categorizer.py: a catalog of categories
    with keywords, a table of manual overrides, the first-match precedence
    search of `categorize`, the override mutators, in-place batch labelling,
    and the review loop of `interactive_categorize` driven by a script of
    answers. */
module Categorization {
  import opened Common
  import opened Dicts

  /** One catalog entry of `categories.json`; the display names are optional
      (`data.get('name', key)`, `data.get('name_en', '')`). */
  datatype CategoryInfo = CategoryInfo(name: Option<string>, nameEn: Option<string>, keywords: seq<string>)

  /** `(category_key, category_name_hebrew, category_name_english)`. */
  datatype Label = Label(key: string, name: string, nameEn: string)

  type Catalog = Dict<string, CategoryInfo>

  /** Description pattern to category key, in insertion order. */
  type Overrides = Dict<string, string>

  function LabelOf(key: string, info: CategoryInfo): Label {
    Label(key, info.name.GetOr(key), info.nameEn.GetOr(""))
  }

  function CatalogLabel(catalog: Catalog, key: string): Label
    requires HasKey(catalog, key)
  {
    LabelOf(key, Lookup(catalog, key).value)
  }

  // ---------------------------------------------------------------------------
  // categorize
  // ---------------------------------------------------------------------------

  /** An override pattern applies when, lowercased, it contains or is
      contained in the lowercased description. */
  predicate PatternMatches(pattern: string, lowered: string) {
    Contains(lowered, Lower(pattern)) || Contains(Lower(pattern), lowered)
  }

  /** The exact override: the stripped description is an override key whose
      category is in the catalog. */
  function ExactOverride(catalog: Catalog, overrides: Overrides, description: string): (r: Option<string>)
    ensures r.Some? ==> HasKey(catalog, r.value)
  {
    match Lookup(overrides, Strip(description))
    case Some(k) => if HasKey(catalog, k) then Some(k) else None
    case None => None
  }

  /** The first override, in insertion order, whose pattern applies and whose
      category is in the catalog. */
  function PartialOverride(catalog: Catalog, overrides: Overrides, lowered: string): (r: Option<string>)
    ensures r.Some? ==> HasKey(catalog, r.value)
  {
    if overrides == [] then None
    else if PatternMatches(overrides[0].0, lowered) && HasKey(catalog, overrides[0].1) then Some(overrides[0].1)
    else PartialOverride(catalog, overrides[1..], lowered)
  }

  /** Some keyword, lowercased, occurs in the lowercased description. */
  predicate KeywordHit(keywords: seq<string>, lowered: string) {
    exists i :: 0 <= i < |keywords| && Contains(lowered, Lower(keywords[i]))
  }

  /** The first catalog entry, in catalog order, with a keyword hit. */
  function KeywordCategory(catalog: Catalog, lowered: string): (r: Option<(string, CategoryInfo)>)
    ensures r.Some? ==> r.value in catalog
  {
    if catalog == [] then None
    else if KeywordHit(catalog[0].1.keywords, lowered) then Some(catalog[0])
    else KeywordCategory(catalog[1..], lowered)
  }

  /** The fallback: the catalog's own `'אחר'` entry when it has one. */
  function DefaultLabel(catalog: Catalog): Label {
    match Lookup(catalog, OTHER)
    case Some(info) => Label(OTHER, info.name.GetOr(OTHER), info.nameEn.GetOr("Other"))
    case None => Label(OTHER, OTHER, "Other")
  }

  /** `categorize`: exact override, then partial override, then keyword,
      then the default. */
  function Categorized(catalog: Catalog, overrides: Overrides, description: string): Label {
    var lowered := Lower(description);
    match ExactOverride(catalog, overrides, description)
    case Some(k) => CatalogLabel(catalog, k)
    case None =>
      match PartialOverride(catalog, overrides, lowered)
      case Some(k) => CatalogLabel(catalog, k)
      case None =>
        match KeywordCategory(catalog, lowered)
        case Some(entry) => LabelOf(entry.0, entry.1)
        case None => DefaultLabel(catalog)
  }

  /** The category is always a catalog key or `'אחר'`. */
  lemma CategorizedKnown(catalog: Catalog, overrides: Overrides, description: string)
    ensures var l := Categorized(catalog, overrides, description);
      l.key == OTHER || HasKey(catalog, l.key)
  {
    var lowered := Lower(description);
    if ExactOverride(catalog, overrides, description).None? && PartialOverride(catalog, overrides, lowered).None? {
      var r := KeywordCategory(catalog, lowered);
      if r.Some? {
        var i :| 0 <= i < |catalog| && catalog[i] == r.value;
        PositionOf(catalog, i);
      }
    }
  }

  predicate Applies(catalog: Catalog, entry: (string, string), lowered: string) {
    PatternMatches(entry.0, lowered) && HasKey(catalog, entry.1)
  }

  /** The first applicable override wins. */
  lemma {:induction false} PartialOverrideFirst(catalog: Catalog, overrides: Overrides, lowered: string, i: nat)
    requires i < |overrides| && Applies(catalog, overrides[i], lowered)
    requires forall j :: 0 <= j < i ==> !Applies(catalog, overrides[j], lowered)
    ensures PartialOverride(catalog, overrides, lowered) == Some(overrides[i].1)
  {
    if i > 0 {
      assert !Applies(catalog, overrides[0], lowered);
      var rest := overrides[1..];
      forall j | 0 <= j < i - 1 ensures !Applies(catalog, rest[j], lowered) {
        assert rest[j] == overrides[j + 1];
      }
      PartialOverrideFirst(catalog, rest, lowered, i - 1);
    }
  }

  /** No partial override exactly when no override applies. */
  lemma {:induction false} PartialOverrideNone(catalog: Catalog, overrides: Overrides, lowered: string)
    ensures PartialOverride(catalog, overrides, lowered).None? <==>
      forall j :: 0 <= j < |overrides| ==> !Applies(catalog, overrides[j], lowered)
  {
    if overrides != [] {
      var rest := overrides[1..];
      PartialOverrideNone(catalog, rest, lowered);
      assert forall j :: 0 < j < |overrides| ==> overrides[j] == rest[j - 1];
    }
  }

  /** The first catalog entry with a keyword hit wins. */
  lemma {:induction false} KeywordCategoryFirst(catalog: Catalog, lowered: string, c: nat)
    requires c < |catalog| && KeywordHit(catalog[c].1.keywords, lowered)
    requires forall j :: 0 <= j < c ==> !KeywordHit(catalog[j].1.keywords, lowered)
    ensures KeywordCategory(catalog, lowered) == Some(catalog[c])
  {
    if c > 0 {
      assert !KeywordHit(catalog[0].1.keywords, lowered);
      var rest := catalog[1..];
      forall j | 0 <= j < c - 1 ensures !KeywordHit(rest[j].1.keywords, lowered) {
        assert rest[j] == catalog[j + 1];
      }
      KeywordCategoryFirst(rest, lowered, c - 1);
    }
  }

  /** No keyword category exactly when no entry has a keyword hit. */
  lemma {:induction false} KeywordCategoryNone(catalog: Catalog, lowered: string)
    ensures KeywordCategory(catalog, lowered).None? <==>
      forall j :: 0 <= j < |catalog| ==> !KeywordHit(catalog[j].1.keywords, lowered)
  {
    if catalog != [] {
      var rest := catalog[1..];
      KeywordCategoryNone(rest, lowered);
      assert forall j :: 0 < j < |catalog| ==> catalog[j] == rest[j - 1];
    }
  }

  /** An exact override into the catalog decides, whatever the partial
      overrides and keywords say. */
  lemma ExactOverrideWins(catalog: Catalog, overrides: Overrides, description: string, key: string)
    requires Lookup(overrides, Strip(description)) == Some(key) && HasKey(catalog, key)
    ensures Categorized(catalog, overrides, description) == CatalogLabel(catalog, key)
  {
  }

  /** Without an exact override, the first applicable partial override
      decides, ahead of every keyword. */
  lemma PartialOverrideWins(catalog: Catalog, overrides: Overrides, description: string, i: nat)
    requires ExactOverride(catalog, overrides, description).None?
    requires i < |overrides| && Applies(catalog, overrides[i], Lower(description))
    requires forall j :: 0 <= j < i ==> !Applies(catalog, overrides[j], Lower(description))
    ensures Categorized(catalog, overrides, description) == CatalogLabel(catalog, overrides[i].1)
  {
    PartialOverrideFirst(catalog, overrides, Lower(description), i);
  }

  /** Keywords are consulted only when no override applies; then the first
      catalog entry with a keyword hit decides. */
  lemma KeywordWins(catalog: Catalog, overrides: Overrides, description: string, c: nat)
    requires ExactOverride(catalog, overrides, description).None?
    requires forall j :: 0 <= j < |overrides| ==> !Applies(catalog, overrides[j], Lower(description))
    requires c < |catalog| && KeywordHit(catalog[c].1.keywords, Lower(description))
    requires forall j :: 0 <= j < c ==> !KeywordHit(catalog[j].1.keywords, Lower(description))
    ensures Categorized(catalog, overrides, description) == LabelOf(catalog[c].0, catalog[c].1)
  {
    PartialOverrideNone(catalog, overrides, Lower(description));
    KeywordCategoryFirst(catalog, Lower(description), c);
  }

  /** With no override and no keyword hit the result is `'אחר'`. */
  lemma DefaultWhenNothingMatches(catalog: Catalog, overrides: Overrides, description: string)
    requires ExactOverride(catalog, overrides, description).None?
    requires forall j :: 0 <= j < |overrides| ==> !Applies(catalog, overrides[j], Lower(description))
    requires forall j :: 0 <= j < |catalog| ==> !KeywordHit(catalog[j].1.keywords, Lower(description))
    ensures Categorized(catalog, overrides, description) == DefaultLabel(catalog)
    ensures Categorized(catalog, overrides, description).key == OTHER
  {
    PartialOverrideNone(catalog, overrides, Lower(description));
    KeywordCategoryNone(catalog, Lower(description));
  }

  // ---------------------------------------------------------------------------
  // categorize_transactions
  // ---------------------------------------------------------------------------

  /** A transaction with its category set to its description's category key. */
  function Tagged(catalog: Catalog, overrides: Overrides, t: Transaction): Transaction {
    t.(category := Some(Categorized(catalog, overrides, t.description).key))
  }

  /** Every transaction of `ts` tagged, in order. */
  function TaggedAll(catalog: Catalog, overrides: Overrides, ts: seq<Transaction>): (r: seq<Transaction>)
    ensures |r| == |ts|
  {
    if ts == [] then [] else TaggedAll(catalog, overrides, ts[..|ts| - 1]) + [Tagged(catalog, overrides, ts[|ts| - 1])]
  }

  /** Tagging changes the category of each transaction, to a catalog key or
      `'אחר'`, and no other field. */
  lemma {:induction false} TaggedAllAt(catalog: Catalog, overrides: Overrides, ts: seq<Transaction>, i: nat)
    requires i < |ts|
    ensures TaggedAll(catalog, overrides, ts)[i] == Tagged(catalog, overrides, ts[i])
    ensures TaggedAll(catalog, overrides, ts)[i].(category := ts[i].category) == ts[i]
    ensures var c := TaggedAll(catalog, overrides, ts)[i].category;
      c.Some? && (c.value == OTHER || HasKey(catalog, c.value))
  {
    if i < |ts| - 1 {
      TaggedAllAt(catalog, overrides, ts[..|ts| - 1], i);
    } else {
      CategorizedKnown(catalog, overrides, ts[i].description);
    }
  }

  // ---------------------------------------------------------------------------
  // get_category_names
  // ---------------------------------------------------------------------------

  /** The labels of the catalog, in catalog order. */
  function CategoryNames(catalog: Catalog): (r: seq<Label>)
    ensures |r| == |catalog|
  {
    seq(|catalog|, i requires 0 <= i < |catalog| => LabelOf(catalog[i].0, catalog[i].1))
  }

  /** Every listed label names a catalog key, with that entry's names. */
  lemma CategoryNamesKnown(catalog: Catalog, i: nat)
    requires DistinctKeys(catalog) && i < |catalog|
    ensures HasKey(catalog, CategoryNames(catalog)[i].key)
    ensures CategoryNames(catalog)[i] == CatalogLabel(catalog, catalog[i].0)
  {
    PositionOf(catalog, i);
  }

  // ---------------------------------------------------------------------------
  // The Categorizer object
  // ---------------------------------------------------------------------------

  class Categorizer {
    var categories: Catalog
    var overrides: Overrides

    ghost predicate Valid()
      reads this
    {
      DistinctKeys(categories) && DistinctKeys(overrides)
    }

    /** A categorizer over the loaded `categories.json` and `overrides.json`
        (empty when a file is missing). */
    constructor (categories: Catalog, overrides: Overrides)
      requires DistinctKeys(categories) && DistinctKeys(overrides)
      ensures Valid()
      ensures this.categories == categories && this.overrides == overrides
    {
      this.categories := categories;
      this.overrides := overrides;
    }

    /** `add_override`: refuses a key that is neither in the catalog nor
        `'אחר'`; otherwise sets the override. */
    method AddOverride(description: string, key: string) returns (ok: bool)
      requires Valid()
      modifies this
      ensures Valid() && categories == old(categories)
      ensures ok <==> HasKey(categories, key) || key == OTHER
      ensures overrides == if ok then Assign(old(overrides), description, key) else old(overrides)
    {
      if !HasKey(categories, key) && key != OTHER {
        return false;
      }
      AssignSpec(overrides, description, key);
      overrides := Assign(overrides, description, key);
      ok := true;
    }

    /** `remove_override`: true exactly when the pattern was present. */
    method RemoveOverride(description: string) returns (removed: bool)
      requires Valid()
      modifies this
      ensures Valid() && categories == old(categories)
      ensures removed <==> HasKey(old(overrides), description)
      ensures overrides == Delete(old(overrides), description)
    {
      DeleteSpec(overrides, description);
      removed := HasKey(overrides, description);
      if removed {
        overrides := Delete(overrides, description);
      }
    }

    /** `list_overrides`: a copy of the table. */
    method ListOverrides() returns (copy: Overrides)
      ensures copy == overrides
    {
      copy := overrides;
    }

    /** `get_category_names`. */
    method GetCategoryNames() returns (names: seq<Label>)
      ensures names == CategoryNames(categories)
    {
      names := [];
      var i := 0;
      while i < |categories|
        invariant i <= |categories|
        invariant names == CategoryNames(categories)[..i]
      {
        var (key, info) := categories[i];
        names := names + [LabelOf(key, info)];
        i := i + 1;
      }
    }

    /** The keyword loop of `categorize` for one catalog entry. */
    method HasKeywordHit(keywords: seq<string>, lowered: string) returns (hit: bool)
      ensures hit == KeywordHit(keywords, lowered)
    {
      var k := 0;
      while k < |keywords|
        invariant k <= |keywords|
        invariant forall j :: 0 <= j < k ==> !Contains(lowered, Lower(keywords[j]))
      {
        if Contains(lowered, Lower(keywords[k])) {
          return true;
        }
        k := k + 1;
      }
      return false;
    }

    /** `categorize`. */
    method Categorize(description: string) returns (r: Label)
      ensures r == Categorized(categories, overrides, description)
    {
      var lowered := Lower(description);
      var clean := Strip(description);
      var exact := Lookup(overrides, clean);
      if exact.Some? && HasKey(categories, exact.value) {
        return CatalogLabel(categories, exact.value);
      }
      var i := 0;
      while i < |overrides|
        invariant i <= |overrides|
        invariant PartialOverride(categories, overrides[i..], lowered) == PartialOverride(categories, overrides, lowered)
      {
        var (pattern, key) := overrides[i];
        if PatternMatches(pattern, lowered) && HasKey(categories, key) {
          return CatalogLabel(categories, key);
        }
        assert overrides[i..][1..] == overrides[i + 1..];
        i := i + 1;
      }
      var c := 0;
      while c < |categories|
        invariant c <= |categories|
        invariant KeywordCategory(categories[c..], lowered) == KeywordCategory(categories, lowered)
      {
        var (key, info) := categories[c];
        var hit := HasKeywordHit(info.keywords, lowered);
        if hit {
          return LabelOf(key, info);
        }
        assert categories[c..][1..] == categories[c + 1..];
        c := c + 1;
      }
      return DefaultLabel(categories);
    }

    /** `categorize_transactions`: every transaction gets the key of its
        description's category, in place. */
    method CategorizeTransactions(ts: array<Transaction>) returns (r: array<Transaction>)
      modifies ts
      ensures r == ts
      ensures ts[..] == TaggedAll(categories, overrides, old(ts[..]))
    {
      ghost var before := ts[..];
      var i := 0;
      while i < ts.Length
        invariant i <= ts.Length
        invariant ts[..i] == TaggedAll(categories, overrides, before[..i])
        invariant ts[i..] == before[i..]
      {
        var found := Categorize(ts[i].description);
        assert ts[i] == before[i];
        ts[i] := ts[i].(category := Some(found.key));
        assert before[..i + 1][..i] == before[..i];
        assert ts[..i + 1] == ts[..i] + [ts[i]];
        i := i + 1;
      }
      assert ts[..i] == ts[..];
      assert before[..i] == before;
      r := ts;
    }
  }

  // ---------------------------------------------------------------------------
  // interactive_categorize
  // ---------------------------------------------------------------------------

  /** An answer typed at the prompt. */
  datatype Choice = Quit | Skip | Pick(number: int) | Unreadable

  /** `int(t)` for an optionally signed run of ASCII digits. */
  function ReadInt(t: string): (r: Option<int>)
    ensures r.Some? <==>
      || (t != [] && AllDigits(t))
      || (|t| > 1 && (t[0] == '-' || t[0] == '+') && AllDigits(t[1..]))
    ensures t != [] && AllDigits(t) ==> r == Some(DigitsValue(t))
    ensures |t| > 1 && t[0] == '-' && AllDigits(t[1..]) ==> r == Some(0 - DigitsValue(t[1..]))
    ensures |t| > 1 && t[0] == '+' && AllDigits(t[1..]) ==> r == Some(DigitsValue(t[1..]))
  {
    if t != [] && (t[0] == '-' || t[0] == '+') then
      var body := t[1..];
      if body != [] && AllDigits(body) then Some(if t[0] == '-' then 0 - DigitsValue(body) else DigitsValue(body))
      else None
    else if t != [] && AllDigits(t) then Some(DigitsValue(t))
    else None
  }

  /** The stripped answer: `q` or `s` in either case, else a number. */
  function ReadChoice(text: string): Choice {
    var t := Strip(text);
    if Lower(t) == "q" then Quit
    else if Lower(t) == "s" then Skip
    else match ReadInt(t)
      case Some(n) => Pick(n)
      case None => Unreadable
  }

  /** The answers as read, one per line of the script. */
  function Answers(script: seq<string>): (a: seq<Choice>)
    ensures |a| == |script|
  {
    if script == [] then [] else Answers(script[..|script| - 1]) + [ReadChoice(script[|script| - 1])]
  }

  lemma {:induction false} AnswersAt(script: seq<string>, i: nat)
    requires i < |script|
    ensures Answers(script)[i] == ReadChoice(script[i])
  {
    if i < |script| - 1 {
      AnswersAt(script[..|script| - 1], i);
    }
  }

  /** The category an answer selects: a number from 1 to the number of
      labels picks that label's key. */
  function ChosenKey(labels: seq<Label>, answer: Choice): (r: Option<string>)
    ensures r.Some? <==> answer.Pick? && 1 <= answer.number <= |labels|
    ensures r.Some? ==> r.value == labels[answer.number - 1].key
  {
    match answer
    case Pick(n) => if 1 <= n <= |labels| then Some(labels[n - 1].key) else None
    case _ => None
  }

  /** The positions of the transactions in `'אחר'`, in order. */
  function Uncategorized(ts: seq<Transaction>): (u: seq<nat>)
    ensures forall k :: 0 <= k < |u| ==> u[k] < |ts| && ts[u[k]].category == Some(OTHER)
    ensures forall k, l :: 0 <= k < l < |u| ==> u[k] < u[l]
  {
    if ts == [] then []
    else
      var init := ts[..|ts| - 1];
      var u := Uncategorized(init);
      assert forall i :: 0 <= i < |init| ==> init[i] == ts[i];
      u + if ts[|ts| - 1].category == Some(OTHER) then [|ts| - 1] else []
  }

  /** Every transaction in `'אחר'` is offered for review. */
  lemma {:induction false} UncategorizedComplete(ts: seq<Transaction>, i: nat)
    requires i < |ts| && ts[i].category == Some(OTHER)
    ensures i in Uncategorized(ts)
  {
    if i < |ts| - 1 {
      var init := ts[..|ts| - 1];
      assert init[i] == ts[i];
      UncategorizedComplete(init, i);
    }
  }

  /** How many of `n` prompts get an answer before the loop stops: at a
      `q`, or when the answers run out. */
  function AnsweredFrom(answers: seq<Choice>, k: nat, n: nat): (h: nat)
    requires k <= n
    ensures k <= h <= n
    ensures h <= |answers| || h == k
    ensures forall j :: k <= j < h ==> j < |answers| && !answers[j].Quit?
    ensures h < n ==> h >= |answers| || answers[h].Quit?
    decreases n - k
  {
    if k == n || k >= |answers| || answers[k].Quit? then k else AnsweredFrom(answers, k + 1, n)
  }

  /** The transactions after the first `k` answers. */
  function Relabel(ts: seq<Transaction>, labels: seq<Label>, answers: seq<Choice>, k: nat): (r: seq<Transaction>)
    requires k <= |Uncategorized(ts)| && k <= |answers|
    ensures |r| == |ts|
  {
    if k == 0 then ts
    else
      var prev := Relabel(ts, labels, answers, k - 1);
      var i := Uncategorized(ts)[k - 1];
      match ChosenKey(labels, answers[k - 1])
      case Some(key) => prev[i := prev[i].(category := Some(key))]
      case None => prev
  }

  /** The override table after the first `k` answers. */
  function Learned(overrides: Overrides, ts: seq<Transaction>, labels: seq<Label>, answers: seq<Choice>, k: nat): Overrides
    requires k <= |Uncategorized(ts)| && k <= |answers|
  {
    if k == 0 then overrides
    else
      var prev := Learned(overrides, ts, labels, answers, k - 1);
      match ChosenKey(labels, answers[k - 1])
      case Some(key) => Assign(prev, ts[Uncategorized(ts)[k - 1]].description, key)
      case None => prev
  }

  /** A chosen label names a catalog key. */
  lemma ChosenKeyKnown(catalog: Catalog, answer: Choice)
    requires ChosenKey(CategoryNames(catalog), answer).Some?
    ensures HasKey(catalog, ChosenKey(CategoryNames(catalog), answer).value)
  {
    PositionOf(catalog, answer.number - 1);
  }

  /** The review changes only transactions that were in `'אחר'`, only their
      category, and only to a catalog key. */
  lemma {:induction false} RelabelOnlyOther(catalog: Catalog, ts: seq<Transaction>, answers: seq<Choice>, k: nat, i: nat)
    requires k <= |Uncategorized(ts)| && k <= |answers| && i < |ts|
    ensures var r := Relabel(ts, CategoryNames(catalog), answers, k);
      && r[i].(category := ts[i].category) == ts[i]
      && (r[i] != ts[i] ==> ts[i].category == Some(OTHER) && r[i].category.Some? && HasKey(catalog, r[i].category.value))
  {
    if k > 0 {
      RelabelOnlyOther(catalog, ts, answers, k - 1, i);
      var u := Uncategorized(ts);
      if u[k - 1] == i && ChosenKey(CategoryNames(catalog), answers[k - 1]).Some? {
        ChosenKeyKnown(catalog, answers[k - 1]);
      }
    }
  }

  /** The review keeps the override keys distinct. */
  lemma {:induction false} LearnedDistinct(labels: seq<Label>, overrides: Overrides, ts: seq<Transaction>, answers: seq<Choice>, k: nat)
    requires DistinctKeys(overrides)
    requires k <= |Uncategorized(ts)| && k <= |answers|
    ensures DistinctKeys(Learned(overrides, ts, labels, answers, k))
  {
    if k > 0 {
      LearnedDistinct(labels, overrides, ts, answers, k - 1);
      var prev := Learned(overrides, ts, labels, answers, k - 1);
      var key := ChosenKey(labels, answers[k - 1]);
      if key.Some? {
        AssignSpec(prev, ts[Uncategorized(ts)[k - 1]].description, key.value);
      }
    }
  }

  /** Every override the review learns maps to the key of one of the
      labels offered. */
  lemma {:induction false} LearnedKnown(labels: seq<Label>, overrides: Overrides, ts: seq<Transaction>, answers: seq<Choice>, k: nat, e: string)
    requires DistinctKeys(overrides)
    requires k <= |Uncategorized(ts)| && k <= |answers|
    ensures var l := Learned(overrides, ts, labels, answers, k);
      Lookup(l, e) != Lookup(overrides, e) ==>
        Lookup(l, e).Some? && exists n :: 0 <= n < |labels| && labels[n].key == Lookup(l, e).value
  {
    if k > 0 {
      LearnedKnown(labels, overrides, ts, answers, k - 1, e);
      LearnedDistinct(labels, overrides, ts, answers, k - 1);
      var prev := Learned(overrides, ts, labels, answers, k - 1);
      var key := ChosenKey(labels, answers[k - 1]);
      var l := Learned(overrides, ts, labels, answers, k);
      if key.Some? {
        var d := ts[Uncategorized(ts)[k - 1]].description;
        assert l == Assign(prev, d, key.value);
        AssignSpec(prev, d, key.value);
        if e == d {
          assert Lookup(l, e) == key;
          assert labels[answers[k - 1].number - 1].key == key.value;
        } else {
          assert Lookup(l, e) == Lookup(prev, e);
        }
      } else {
        assert l == prev;
      }
    }
  }

  /** With the catalog's own labels, every learned override names a catalog
      key. */
  lemma LearnedInCatalog(catalog: Catalog, overrides: Overrides, ts: seq<Transaction>, answers: seq<Choice>, k: nat, e: string)
    requires DistinctKeys(overrides)
    requires k <= |Uncategorized(ts)| && k <= |answers|
    ensures var l := Learned(overrides, ts, CategoryNames(catalog), answers, k);
      Lookup(l, e) != Lookup(overrides, e) ==> Lookup(l, e).Some? && HasKey(catalog, Lookup(l, e).value)
  {
    var l := Learned(overrides, ts, CategoryNames(catalog), answers, k);
    LearnedKnown(CategoryNames(catalog), overrides, ts, answers, k, e);
    if Lookup(l, e) != Lookup(overrides, e) {
      var n :| 0 <= n < |catalog| && CategoryNames(catalog)[n].key == Lookup(l, e).value;
      PositionOf(catalog, n);
    }
  }

  /** The review only learns overrides for descriptions of transactions in
      `'אחר'`; every other override is kept. */
  lemma {:induction false} LearnedFromOther(labels: seq<Label>, overrides: Overrides, ts: seq<Transaction>, answers: seq<Choice>, k: nat, e: string)
    requires DistinctKeys(overrides)
    requires k <= |Uncategorized(ts)| && k <= |answers|
    ensures Lookup(Learned(overrides, ts, labels, answers, k), e) != Lookup(overrides, e) ==>
      exists i :: 0 <= i < |ts| && ts[i].category == Some(OTHER) && ts[i].description == e
  {
    if k > 0 {
      LearnedFromOther(labels, overrides, ts, answers, k - 1, e);
      var prev := Learned(overrides, ts, labels, answers, k - 1);
      var key := ChosenKey(labels, answers[k - 1]);
      var l := Learned(overrides, ts, labels, answers, k);
      if key.Some? {
        var i := Uncategorized(ts)[k - 1];
        assert l == Assign(prev, ts[i].description, key.value);
        LearnedDistinct(labels, overrides, ts, answers, k - 1);
        AssignSpec(prev, ts[i].description, key.value);
        if e != ts[i].description {
          assert Lookup(l, e) == Lookup(prev, e);
        }
      } else {
        assert l == prev;
      }
    }
  }

  /** Reads the answer to the `k`-th prompt. */
  method Prompt(script: seq<string>, k: nat) returns (choice: Choice)
    requires k < |script|
    ensures choice == Answers(script)[k]
  {
    AnswersAt(script, k);
    choice := ReadChoice(script[k]);
  }

  /** One accepted answer: the chosen category is learned as an override for
      the transaction's description and set on the transaction. */
  method Learn(c: Categorizer, ts: array<Transaction>, i: nat, key: string)
    requires c.Valid() && i < ts.Length && HasKey(c.categories, key)
    modifies c, ts
    ensures c.Valid() && c.categories == old(c.categories)
    ensures c.overrides == Assign(old(c.overrides), old(ts[i]).description, key)
    ensures ts[..] == old(ts[..])[i := old(ts[i]).(category := Some(key))]
  {
    var t := ts[i];
    var ok := c.AddOverride(t.description, key);
    ts[i] := t.(category := Some(key));
  }

  /** The `k`-th answer picks `key` for the `k`-th transaction under review. */
  method Accept(c: Categorizer, ts: array<Transaction>, ghost before: seq<Transaction>, ghost overridesBefore: Overrides,
                labels: seq<Label>, ghost answers: seq<Choice>, ghost k: nat, i: nat, key: string)
    requires c.Valid() && labels == CategoryNames(c.categories)
    requires k < |Uncategorized(before)| && k < |answers| && i == Uncategorized(before)[k]
    requires ChosenKey(labels, answers[k]) == Some(key)
    requires ts[..] == Relabel(before, labels, answers, k)
    requires c.overrides == Learned(overridesBefore, before, labels, answers, k)
    modifies c, ts
    ensures c.Valid() && c.categories == old(c.categories)
    ensures ts[..] == Relabel(before, labels, answers, k + 1)
    ensures c.overrides == Learned(overridesBefore, before, labels, answers, k + 1)
  {
    ChosenKeyKnown(c.categories, answers[k]);
    RelabelOnlyOther(c.categories, before, answers, k, i);
    Learn(c, ts, i, key);
  }

  /** `interactive_categorize` over a script of answers: each transaction in
      `'אחר'` is shown in turn; a number picks a category, which is set on
      the transaction and learned as an override; `s` or an unreadable
      answer skips; `q` stops. `eof` reports that the answers ran out, where
      the prompt would raise EOFError. */
  method InteractiveCategorize(c: Categorizer, ts: array<Transaction>, script: seq<string>) returns (eof: bool)
    requires c.Valid()
    modifies c, ts
    ensures c.Valid() && c.categories == old(c.categories)
    ensures var u := Uncategorized(old(ts[..]));
      var labels := CategoryNames(old(c.categories));
      var h := AnsweredFrom(Answers(script), 0, |u|);
      && ts[..] == Relabel(old(ts[..]), labels, Answers(script), h)
      && c.overrides == Learned(old(c.overrides), old(ts[..]), labels, Answers(script), h)
      && (eof <==> h < |u| && h >= |script|)
  {
    ghost var before := ts[..];
    ghost var overridesBefore := c.overrides;
    ghost var answers := Answers(script);
    var u := Uncategorized(ts[..]);
    ghost var h := AnsweredFrom(answers, 0, |u|);
    var labels := c.GetCategoryNames();
    eof := false;
    var k := 0;
    while k < |u|
      invariant k <= |u| && k <= |script|
      invariant AnsweredFrom(answers, k, |u|) == h
      invariant c.Valid() && c.categories == old(c.categories) && labels == CategoryNames(c.categories)
      invariant ts[..] == Relabel(before, labels, answers, k)
      invariant c.overrides == Learned(overridesBefore, before, labels, answers, k)
      invariant !eof
    {
      if k >= |script| {
        eof := true;
        break;
      }
      var choice := Prompt(script, k);
      if choice.Quit? {
        break;
      }
      var key := ChosenKey(labels, choice);
      if key.Some? {
        Accept(c, ts, before, overridesBefore, labels, answers, k, u[k], key.value);
      }
      k := k + 1;
    }
  }
}
