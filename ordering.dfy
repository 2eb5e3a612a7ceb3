/** The two orderings the store relies on: `list.sort(key=lambda x: x.date)`,
    Python's stable sort by date, and `sorted` on a set of strings. */
module Ordering {
  import opened Common

  // ---------------------------------------------------------------------------
  // Stable sort by date
  // ---------------------------------------------------------------------------

  predicate SortedByDate(ts: seq<Transaction>) {
    forall i, j :: 0 <= i < j < |ts| ==> AtMost(ts[i].date, ts[j].date)
  }

  /** Places `t` after every element dated no later than it, the insertion
      step of a stable sort. */
  function InsertByDate(ts: seq<Transaction>, t: Transaction): (r: seq<Transaction>)
    ensures multiset(r) == multiset(ts) + multiset{t}
  {
    if ts == [] then [t]
    else if Before(t.date, ts[0].date) then [t] + ts
    else
      assert ts == [ts[0]] + ts[1..];
      [ts[0]] + InsertByDate(ts[1..], t)
  }

  lemma {:induction false} InsertByDateSorted(ts: seq<Transaction>, t: Transaction)
    requires SortedByDate(ts)
    ensures SortedByDate(InsertByDate(ts, t))
  {
    if ts != [] && !Before(t.date, ts[0].date) {
      var rest := InsertByDate(ts[1..], t);
      InsertByDateSorted(ts[1..], t);
      forall x | x in rest ensures AtMost(ts[0].date, x.date) {
        assert x in multiset(rest);
        if x != t {
          assert x in multiset(ts[1..]);
        }
      }
    }
  }

  /** `sorted(ts, key=date)`: insertion of each element, in order, into the
      sorted prefix. */
  function SortByDate(ts: seq<Transaction>): (r: seq<Transaction>)
    ensures multiset(r) == multiset(ts)
  {
    if ts == [] then []
    else
      assert ts == ts[..|ts| - 1] + [ts[|ts| - 1]];
      InsertByDate(SortByDate(ts[..|ts| - 1]), ts[|ts| - 1])
  }

  lemma {:induction false} SortByDateSorted(ts: seq<Transaction>)
    ensures SortedByDate(SortByDate(ts))
  {
    if ts != [] {
      SortByDateSorted(ts[..|ts| - 1]);
      InsertByDateSorted(SortByDate(ts[..|ts| - 1]), ts[|ts| - 1]);
    }
  }

  /** The elements dated `d`, in order. */
  function OnDate(ts: seq<Transaction>, d: Date): (r: seq<Transaction>)
    ensures |r| <= |ts|
  {
    if ts == [] then []
    else (if ts[0].date == d then [ts[0]] else []) + OnDate(ts[1..], d)
  }

  lemma {:induction false} OnDateAppend(a: seq<Transaction>, b: seq<Transaction>, d: Date)
    ensures OnDate(a + b, d) == OnDate(a, d) + OnDate(b, d)
  {
    if a != [] {
      var h := if a[0].date == d then [a[0]] else [];
      assert (a + b)[0] == a[0] && (a + b)[1..] == a[1..] + b;
      assert OnDate(a + b, d) == h + OnDate(a[1..] + b, d);
      assert OnDate(a, d) == h + OnDate(a[1..], d);
      OnDateAppend(a[1..], b, d);
      assert h + (OnDate(a[1..], d) + OnDate(b, d)) == (h + OnDate(a[1..], d)) + OnDate(b, d);
    } else {
      assert a + b == b;
    }
  }

  /** A sorted sequence starting after `d` has nothing dated `d`. */
  lemma {:induction false} OnDateAfter(ts: seq<Transaction>, d: Date)
    requires SortedByDate(ts) && ts != [] && Before(d, ts[0].date)
    ensures OnDate(ts, d) == []
  {
    BeforeTotal(d, ts[0].date);
    if |ts| > 1 {
      BeforeTotal(ts[0].date, ts[1].date);
      OnDateAfter(ts[1..], d);
    }
  }

  lemma {:induction false} InsertByDateOnDate(ts: seq<Transaction>, t: Transaction, d: Date)
    requires SortedByDate(ts)
    ensures OnDate(InsertByDate(ts, t), d) == OnDate(ts, d) + (if t.date == d then [t] else [])
  {
    if ts == [] {
    } else if Before(t.date, ts[0].date) {
      if t.date == d {
        OnDateAfter(ts, d);
      }
      assert ([t] + ts)[1..] == ts;
    } else {
      var rest := InsertByDate(ts[1..], t);
      var head := if ts[0].date == d then [ts[0]] else [];
      var tail := if t.date == d then [t] else [];
      assert ([ts[0]] + rest)[1..] == rest;
      assert OnDate(InsertByDate(ts, t), d) == head + OnDate(rest, d);
      InsertByDateOnDate(ts[1..], t, d);
      assert OnDate(ts, d) == head + OnDate(ts[1..], d);
      ConcatAssoc(head, OnDate(ts[1..], d), tail);
    }
  }

  lemma ConcatAssoc<T>(a: seq<T>, b: seq<T>, c: seq<T>)
    ensures a + (b + c) == (a + b) + c
  {
  }

  lemma LastSplit(ts: seq<Transaction>)
    requires ts != []
    ensures ts == ts[..|ts| - 1] + [ts[|ts| - 1]]
  {
  }

  /** The sort is stable: the elements sharing a date keep their relative
      order. */
  lemma {:induction false} SortByDateStable(ts: seq<Transaction>, d: Date)
    ensures OnDate(SortByDate(ts), d) == OnDate(ts, d)
  {
    if ts != [] {
      var init := ts[..|ts| - 1];
      var last := ts[|ts| - 1];
      var sorted := SortByDate(init);
      var tail := if last.date == d then [last] else [];
      assert SortByDate(ts) == InsertByDate(sorted, last);
      SortByDateStable(init, d);
      SortByDateSorted(init);
      InsertByDateOnDate(sorted, last, d);
      assert OnDate([last], d) == tail + OnDate([], d);
      LastSplit(ts);
      OnDateAppend(init, [last], d);
    }
  }

  // ---------------------------------------------------------------------------
  // Sorted distinct strings
  // ---------------------------------------------------------------------------

  predicate StrictlyAscending(s: seq<string>) {
    forall i, j :: 0 <= i < j < |s| ==> StrLess(s[i], s[j])
  }

  /** Adds `x` to a strictly ascending sequence of strings, where it belongs. */
  function InsertString(s: seq<string>, x: string): (r: seq<string>)
    ensures forall y :: y in r <==> y in s || y == x
  {
    if s == [] then [x]
    else if StrLess(x, s[0]) then [x] + s
    else if x == s[0] then s
    else
      assert s == [s[0]] + s[1..];
      [s[0]] + InsertString(s[1..], x)
  }

  lemma {:induction false} InsertStringAscending(s: seq<string>, x: string)
    requires StrictlyAscending(s)
    ensures StrictlyAscending(InsertString(s, x))
  {
    if s != [] && !StrLess(x, s[0]) && x != s[0] {
      var rest := InsertString(s[1..], x);
      InsertStringAscending(s[1..], x);
      StrLessTotal(x, s[0]);
      forall y | y in rest ensures StrLess(s[0], y) {
        if y != x {
          var k :| 1 <= k < |s| && s[k] == y;
        }
      }
    } else if s != [] && StrLess(x, s[0]) {
      var r := [x] + s;
      forall i, j | 0 <= i < j < |r| ensures StrLess(r[i], r[j]) {
        if i == 0 && j > 1 {
          StrLessTransitive(x, s[0], s[j - 1]);
        }
      }
    }
  }
}
