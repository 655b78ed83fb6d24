/**
 * The statistics over the whole expense collection: the grand total, totals
 * per category and per month, today's total, this month's total and the
 * record count, all from one snapshot of the records.
 */
module Statistics {
  import opened Dates
  import opened Expenses

  // ---------------------------------------------------------------------------
  // Specification: sums over the records

  /** The sum of all amounts; 0 for no records. */
  function SumAmounts(s: seq<Expense>): real {
    if s == [] then 0.0 else SumAmounts(s[..|s| - 1]) + s[|s| - 1].amount
  }

  /** The keys that occur among the records. */
  function KeysOf<K>(s: seq<Expense>, key: Expense -> K): set<K> {
    set e | e in s :: key(e)
  }

  /** The sum of the amounts of the records whose key is `k`. */
  function KeyTotal<K(==)>(s: seq<Expense>, key: Expense -> K, k: K): real {
    if s == [] then 0.0
    else KeyTotal(s[..|s| - 1], key, k) + (if key(s[|s| - 1]) == k then s[|s| - 1].amount else 0.0)
  }

  function CategoryOf(e: Expense): string {
    e.category
  }

  function DateOf(e: Expense): Date {
    e.date
  }

  /**
   * The month key of a record. A stored record always has a real date (the
   * store's invariant requires it), so the `""` case never arises for one.
   */
  function MonthOf(e: Expense): string {
    if ValidDate(e.date) then MonthKey(e.date) else ""
  }

  /** Every record's date is a real calendar date, as the store keeps them. */
  predicate AllDated(s: seq<Expense>) {
    forall i :: 0 <= i < |s| ==> ValidDate(s[i].date)
  }

  // ---------------------------------------------------------------------------
  // Sums over the values of a map

  ghost function Pick<K>(m: map<K, real>): K
    requires |m| > 0
  {
    var k :| k in m; k
  }

  /** The sum of the values of a map. */
  ghost function MapSum<K>(m: map<K, real>): real
    decreases |m|
  {
    if |m| == 0 then 0.0
    else
      var k := Pick(m);
      assert |m - {k}| == |m| - 1 by {
        assert (m - {k}).Keys == m.Keys - {k};
      }
      m[k] + MapSum(m - {k})
  }

  /** The sum may be taken starting from any key. */
  lemma {:induction false} MapSumAt<K>(m: map<K, real>, k: K)
    requires k in m
    ensures MapSum(m) == m[k] + MapSum(m - {k})
    decreases |m|
  {
    var j := Pick(m);
    if j != k {
      var mj, mk := m - {j}, m - {k};
      assert (m - {j}).Keys == m.Keys - {j} && (m - {k}).Keys == m.Keys - {k};
      MapSumAt(mj, k);
      MapSumAt(mk, j);
      assert mj - {k} == mk - {j};
    }
  }

  /** Changing the value at one key changes the sum by the difference. */
  lemma MapSumUpdate<K>(m: map<K, real>, k: K, v: real)
    ensures MapSum(m[k := v]) == MapSum(m) - (if k in m then m[k] else 0.0) + v
  {
    if k in m {
      MapSumReplace(m, k, v);
    } else {
      MapSumInsert(m, k, v);
    }
  }

  lemma MapSumReplace<K>(m: map<K, real>, k: K, v: real)
    requires k in m
    ensures MapSum(m[k := v]) == MapSum(m) - m[k] + v
  {
    var m' := m[k := v];
    MapSumAt(m', k);
    MapSumAt(m, k);
    assert m' - {k} == m - {k};
  }

  lemma MapSumInsert<K>(m: map<K, real>, k: K, v: real)
    requires k !in m
    ensures MapSum(m[k := v]) == MapSum(m) + v
  {
    var m' := m[k := v];
    MapSumAt(m', k);
    assert m' - {k} == m;
  }

  // ---------------------------------------------------------------------------
  // Properties of the specification

  lemma KeysOfAppend<K>(s: seq<Expense>, e: Expense, key: Expense -> K)
    ensures KeysOf(s + [e], key) == KeysOf(s, key) + {key(e)}
  {
  }

  /** A key that occurs in no record has total 0. */
  lemma {:induction false} KeyTotalAbsent<K>(s: seq<Expense>, key: Expense -> K, k: K)
    requires k !in KeysOf(s, key)
    ensures KeyTotal(s, key, k) == 0.0
  {
    if s != [] {
      var init := s[..|s| - 1];
      assert s == init + [s[|s| - 1]];
      KeysOfAppend(init, s[|s| - 1], key);
      KeyTotalAbsent(init, key, k);
    }
  }

  /** The totals of all records but the last, obtained from the totals of all of them. */
  function WithoutLast<K>(m: map<K, real>, init: seq<Expense>, e: Expense, key: Expense -> K): map<K, real>
    requires key(e) in m
  {
    var k := key(e);
    if k in KeysOf(init, key) then m[k := m[k] - e.amount] else m - {k}
  }

  lemma WithoutLastTotals<K>(init: seq<Expense>, e: Expense, key: Expense -> K, m: map<K, real>)
    requires m.Keys == KeysOf(init + [e], key)
    requires forall k :: k in m ==> m[k] == KeyTotal(init + [e], key, k)
    ensures key(e) in m
    ensures WithoutLast(m, init, e, key).Keys == KeysOf(init, key)
    ensures forall k :: k in WithoutLast(m, init, e, key) ==> WithoutLast(m, init, e, key)[k] == KeyTotal(init, key, k)
  {
  }

  /**
   * Any map holding exactly the keys that occur, each with its key's total,
   * has values summing to the grand total.
   */
  lemma {:induction false} GroupTotalsSum<K>(s: seq<Expense>, key: Expense -> K, m: map<K, real>)
    requires m.Keys == KeysOf(s, key)
    requires forall k :: k in m ==> m[k] == KeyTotal(s, key, k)
    ensures MapSum(m) == SumAmounts(s)
  {
    if s == [] {
      assert m == map[];
    } else {
      var init, e := s[..|s| - 1], s[|s| - 1];
      var k := key(e);
      assert s == init + [e];
      WithoutLastTotals(init, e, key, m);
      var w := WithoutLast(m, init, e, key);
      GroupTotalsSum(init, key, w);
      assert SumAmounts(s) == SumAmounts(init) + e.amount;
      if k in KeysOf(init, key) {
        assert w == m[k := m[k] - e.amount];
        MapSumUpdate(m, k, m[k] - e.amount);
      } else {
        assert w == m - {k};
        MapSumAt(m, k);
        KeyTotalAbsent(init, key, k);
        assert m[k] == e.amount;
      }
    }
  }

  /** Finds a record in a sequence holding it, and what is left without it. */
  lemma FindRecord(t: seq<Expense>, e: Expense) returns (j: nat)
    requires e in multiset(t)
    ensures j < |t| && t[j] == e
    ensures multiset(t[..j] + t[j + 1..]) == multiset(t) - multiset{e}
  {
    j :| 0 <= j < |t| && t[j] == e;
    assert t == t[..j] + [e] + t[j + 1..];
  }

  /** Removing one record takes its amount off every total it contributed to. */
  lemma {:induction false} SumAmountsRemove(s: seq<Expense>, i: nat)
    requires i < |s|
    ensures SumAmounts(s[..i] + s[i + 1..]) == SumAmounts(s) - s[i].amount
  {
    var init := s[..|s| - 1];
    if i < |s| - 1 {
      SumAmountsRemove(init, i);
      var r := s[..i] + s[i + 1..];
      assert r[..|r| - 1] == init[..i] + init[i + 1..];
      assert r[|r| - 1] == s[|s| - 1];
    } else {
      assert s[..i] + s[i + 1..] == init;
    }
  }

  lemma {:induction false} KeyTotalRemove<K>(s: seq<Expense>, key: Expense -> K, k: K, i: nat)
    requires i < |s|
    ensures KeyTotal(s[..i] + s[i + 1..], key, k) == KeyTotal(s, key, k) - (if key(s[i]) == k then s[i].amount else 0.0)
  {
    var init := s[..|s| - 1];
    if i < |s| - 1 {
      KeyTotalRemove(init, key, k, i);
      var r := s[..i] + s[i + 1..];
      assert r[..|r| - 1] == init[..i] + init[i + 1..];
      assert r[|r| - 1] == s[|s| - 1];
    } else {
      assert s[..i] + s[i + 1..] == init;
    }
  }

  /** The grand total does not depend on the order the records are read in. */
  lemma {:induction false} SumAmountsPermutation(s: seq<Expense>, t: seq<Expense>)
    requires multiset(s) == multiset(t)
    ensures SumAmounts(s) == SumAmounts(t)
    decreases |s|
  {
    if s != [] {
      var init, e := s[..|s| - 1], s[|s| - 1];
      assert s == init + [e];
      assert e in multiset(t);
      var j := FindRecord(t, e);
      var t' := t[..j] + t[j + 1..];
      SumAmountsPermutation(init, t');
      SumAmountsRemove(t, j);
    } else {
      assert t == [];
    }
  }

  /** Each key's total does not depend on the order the records are read in. */
  lemma {:induction false} KeyTotalPermutation<K>(s: seq<Expense>, t: seq<Expense>, key: Expense -> K, k: K)
    requires multiset(s) == multiset(t)
    ensures KeyTotal(s, key, k) == KeyTotal(t, key, k)
    decreases |s|
  {
    if s != [] {
      var init, e := s[..|s| - 1], s[|s| - 1];
      assert s == init + [e];
      assert e in multiset(t);
      var j := FindRecord(t, e);
      var t' := t[..j] + t[j + 1..];
      KeyTotalPermutation(init, t', key, k);
      KeyTotalRemove(t, key, k, j);
    } else {
      assert t == [];
    }
  }

  /** With no negative amounts, today's total is part of this month's total. */
  lemma {:induction false} TodayWithinMonth(s: seq<Expense>, today: Date)
    requires ValidDate(today) && AllDated(s)
    requires forall i :: 0 <= i < |s| ==> s[i].amount >= 0.0
    ensures 0.0 <= KeyTotal(s, DateOf, today) <= KeyTotal(s, MonthOf, MonthKey(today))
  {
    if s != [] {
      var init, e := s[..|s| - 1], s[|s| - 1];
      TodayWithinMonth(init, today);
      if e.date == today {
        assert MonthOf(e) == MonthKey(today);
      }
    }
  }

  // ---------------------------------------------------------------------------
  // The computation

  /**
   * Builds the table of totals by key with one pass over the records: a key
   * seen for the first time starts at 0, then the record's amount is added.
   */
  method TotalsBy<K(==)>(expenses: seq<Expense>, key: Expense -> K) returns (totals: map<K, real>)
    ensures totals.Keys == KeysOf(expenses, key)
    ensures forall k :: k in totals ==> totals[k] == KeyTotal(expenses, key, k)
  {
    totals := map[];
    for i := 0 to |expenses|
      invariant totals.Keys == KeysOf(expenses[..i], key)
      invariant forall k :: k in totals ==> totals[k] == KeyTotal(expenses[..i], key, k)
    {
      var e := expenses[i];
      var k := key(e);
      assert expenses[..i + 1] == expenses[..i] + [e];
      KeysOfAppend(expenses[..i], e, key);
      if k !in totals {
        KeyTotalAbsent(expenses[..i], key, k);
        totals := totals[k := 0.0];
      }
      totals := totals[k := totals[k] + e.amount];
    }
    assert expenses[..|expenses|] == expenses;
  }

  /** The six statistics reported together. */
  datatype Summary = Summary(
    totalExpenses: real,
    categoryTotals: map<string, real>,
    monthlyExpenses: map<string, real>,
    todayExpenses: real,
    thisMonthExpenses: real,
    totalCount: nat)

  /**
   * Computes the statistics of a snapshot of the records; `today` is the
   * current date, read by the caller.
   */
  method GetStatistics(expenses: seq<Expense>, today: Date) returns (st: Summary)
    requires ValidDate(today)
    ensures st.totalExpenses == SumAmounts(expenses)
    ensures st.totalCount == |expenses|
    ensures st.categoryTotals.Keys == KeysOf(expenses, CategoryOf)
    ensures forall c :: c in st.categoryTotals ==> st.categoryTotals[c] == KeyTotal(expenses, CategoryOf, c)
    ensures st.monthlyExpenses.Keys == KeysOf(expenses, MonthOf)
    ensures forall m :: m in st.monthlyExpenses ==> st.monthlyExpenses[m] == KeyTotal(expenses, MonthOf, m)
    ensures st.todayExpenses == KeyTotal(expenses, DateOf, today)
    ensures st.thisMonthExpenses
      == if MonthKey(today) in st.monthlyExpenses then st.monthlyExpenses[MonthKey(today)] else 0.0
    ensures st.thisMonthExpenses == KeyTotal(expenses, MonthOf, MonthKey(today))
    ensures MapSum(st.categoryTotals) == st.totalExpenses
    ensures MapSum(st.monthlyExpenses) == st.totalExpenses
  {
    var total := SumAmounts(expenses);
    var categoryTotals := TotalsBy(expenses, CategoryOf);
    var monthlyExpenses := TotalsBy(expenses, MonthOf);
    var todayExpenses := KeyTotal(expenses, DateOf, today);
    var thisMonth := MonthKey(today);
    var thisMonthExpenses := if thisMonth in monthlyExpenses then monthlyExpenses[thisMonth] else 0.0;
    if thisMonth !in monthlyExpenses {
      KeyTotalAbsent(expenses, MonthOf, thisMonth);
    }
    GroupTotalsSum(expenses, CategoryOf, categoryTotals);
    GroupTotalsSum(expenses, MonthOf, monthlyExpenses);
    st := Summary(total, categoryTotals, monthlyExpenses, todayExpenses, thisMonthExpenses, |expenses|);
  }
}
