/**
 * The expense store: the collection of stored records with the three
 * operations the tracker offers on it (list newest first, add from a request
 * body, delete by id). The database table is modelled as a sequence of
 * records held by a store object.
 */
module Store {
  import opened Wrappers
  import opened Dates
  import opened Expenses
  import opened Statistics

  /** The ids in use. */
  function Ids(s: seq<Expense>): set<int> {
    set e | e in s :: e.id
  }

  predicate UniqueIds(s: seq<Expense>) {
    forall i, j :: 0 <= i < j < |s| ==> s[i].id != s[j].id
  }

  /** The largest id in use, 0 when there is none. */
  function MaxId(s: seq<Expense>): (m: nat)
    ensures forall e :: e in s ==> e.id <= m
    ensures m == 0 || m in Ids(s)
  {
    if s == [] then 0
    else
      var init, last := s[..|s| - 1], s[|s| - 1];
      assert s == init + [last];
      var m := MaxId(init);
      if last.id > m then last.id else m
  }

  /** The position of the record with id `id`, if there is one. */
  function IndexOfId(s: seq<Expense>, id: int): (r: Option<nat>)
    ensures r.None? <==> id !in Ids(s)
    ensures r.Some? ==> r.value < |s| && s[r.value].id == id
  {
    if s == [] then None
    else if s[0].id == id then Some(0)
    else
      assert forall e :: e in s ==> e == s[0] || e in s[1..];
      match IndexOfId(s[1..], id)
      case Some(i) => Some(i + 1)
      case None => None
  }

  /** The records with the one whose id is `id` taken out, if there is one. */
  function WithoutId(s: seq<Expense>, id: int): (r: seq<Expense>)
    ensures id !in Ids(s) ==> r == s
    ensures id in Ids(s) ==> exists i :: 0 <= i < |s| && s[i].id == id && r == s[..i] + s[i + 1..]
    ensures UniqueIds(s) ==> UniqueIds(r) && id !in Ids(r) && Ids(r) == Ids(s) - {id}
  {
    match IndexOfId(s, id)
    case None => s
    case Some(i) =>
      RemoveAtIds(s, i);
      s[..i] + s[i + 1..]
  }

  /** Taking out the record at `i` takes out its id and keeps the ids unique. */
  lemma RemoveAtIds(s: seq<Expense>, i: nat)
    requires i < |s|
    ensures var r := s[..i] + s[i + 1..];
      UniqueIds(s) ==> UniqueIds(r) && s[i].id !in Ids(r) && Ids(r) == Ids(s) - {s[i].id}
  {
    var r := s[..i] + s[i + 1..];
    assert forall j :: 0 <= j < |r| ==> r[j] == s[if j < i then j else j + 1];
    assert forall e :: e in s ==> e == s[i] || e in r;
  }

  /** With unique ids, deleting the id of the record at `i` takes out exactly that record. */
  lemma WithoutIdAt(s: seq<Expense>, i: nat)
    requires UniqueIds(s) && i < |s|
    ensures WithoutId(s, s[i].id) == s[..i] + s[i + 1..]
  {
    var j := IndexOfId(s, s[i].id).value;
    assert j == i;
  }

  /** Adding a record with a fresh id and then deleting that id gives back the records as they were. */
  lemma AddThenDelete(s: seq<Expense>, e: Expense)
    requires e.id !in Ids(s)
    ensures WithoutId(s + [e], e.id) == s
  {
  }

  /**
   * Deleting a record takes its amount off the grand total and off the
   * totals of its category and of its month; every other total is unchanged.
   */
  lemma DeleteUpdatesTotals(s: seq<Expense>, i: nat)
    requires UniqueIds(s) && i < |s|
    ensures var r := WithoutId(s, s[i].id);
      && |r| == |s| - 1
      && SumAmounts(r) == SumAmounts(s) - s[i].amount
      && (forall c :: KeyTotal(r, CategoryOf, c)
            == KeyTotal(s, CategoryOf, c) - (if s[i].category == c then s[i].amount else 0.0))
      && (forall m :: KeyTotal(r, MonthOf, m)
            == KeyTotal(s, MonthOf, m) - (if MonthOf(s[i]) == m then s[i].amount else 0.0))
  {
    WithoutIdAt(s, i);
    SumAmountsRemove(s, i);
    forall c {
      KeyTotalRemove(s, CategoryOf, c, i);
    }
    forall m {
      KeyTotalRemove(s, MonthOf, m, i);
    }
  }

  // ---------------------------------------------------------------------------
  // Listing, newest first

  /** Dates never increase along the sequence. */
  predicate NewestFirst(s: seq<Expense>) {
    forall i, j :: 0 <= i < j < |s| ==> NotAfter(s[j].date, s[i].date)
  }

  /** A record dated on or after every record of a newest-first sequence can go in front of it. */
  lemma PrependNewest(x: Expense, rest: seq<Expense>)
    requires NewestFirst(rest)
    requires forall j :: 0 <= j < |rest| ==> NotAfter(rest[j].date, x.date)
    ensures NewestFirst([x] + rest)
  {
    var r := [x] + rest;
    forall i, j | 0 <= i < j < |r| ensures NotAfter(r[j].date, r[i].date) {
      assert r[j] == rest[j - 1];
      if i > 0 {
        assert r[i] == rest[i - 1];
      }
    }
  }

  /** Every record of `rest`, which holds the tail of `s` and `e`, is dated on or before the head of `s`. */
  lemma HeadBoundsRest(e: Expense, s: seq<Expense>, rest: seq<Expense>)
    requires s != [] && NewestFirst(s) && NotAfter(e.date, s[0].date)
    requires multiset(rest) == multiset(s[1..]) + multiset{e}
    ensures forall j :: 0 <= j < |rest| ==> NotAfter(rest[j].date, s[0].date)
  {
    forall j | 0 <= j < |rest| ensures NotAfter(rest[j].date, s[0].date) {
      var x := rest[j];
      assert x in multiset(rest);
      if x != e {
        assert x in multiset(s[1..]);
        var k :| 0 <= k < |s[1..]| && s[1..][k] == x;
        assert x == s[k + 1];
      }
    }
  }

  /** Puts `e` into a newest-first sequence, after every record dated on or after it. */
  function InsertByDate(e: Expense, s: seq<Expense>): (r: seq<Expense>)
    requires NewestFirst(s)
    ensures NewestFirst(r)
    ensures multiset(r) == multiset(s) + multiset{e}
  {
    if s == [] then [e]
    else if NotAfter(e.date, s[0].date) then
      var rest := InsertByDate(e, s[1..]);
      assert s == [s[0]] + s[1..];
      HeadBoundsRest(e, s, rest);
      PrependNewest(s[0], rest);
      [s[0]] + rest
    else
      PrependNewest(e, s);
      [e] + s
  }

  /** The records in date order, newest first; records with the same date keep their stored order. */
  function ByDateDesc(s: seq<Expense>): (r: seq<Expense>)
    ensures NewestFirst(r)
    ensures multiset(r) == multiset(s)
  {
    if s == [] then []
    else
      assert s == s[..|s| - 1] + [s[|s| - 1]];
      InsertByDate(s[|s| - 1], ByDateDesc(s[..|s| - 1]))
  }

  /** The outcome of a delete request. */
  datatype DeleteOutcome = Deleted | NotFound

  // ---------------------------------------------------------------------------
  // The store

  class ExpenseStore {
    var records: seq<Expense>

    /** Ids are unique and positive and every date is a real date. */
    ghost predicate Valid()
      reads this
    {
      UniqueIds(records) && AllDated(records) && forall i :: 0 <= i < |records| ==> records[i].id > 0
    }

    /** An empty store. */
    constructor ()
      ensures Valid() && records == []
    {
      records := [];
    }

    /** All records, newest first. */
    method GetExpenses() returns (list: seq<Expense>)
      requires Valid()
      ensures NewestFirst(list)
      ensures multiset(list) == multiset(records)
    {
      list := ByDateDesc(records);
    }

    /**
     * Converts the request body; on success stores one new record with a
     * fresh id and returns it, otherwise returns the error and stores nothing.
     * The id chosen is one more than the largest in use.
     */
    method AddExpense(body: JsonValue) returns (r: Result<Expense, AddError>)
      requires Valid()
      modifies this
      ensures Valid()
      ensures ParseExpenseRequest(body).Failure? ==>
        r == Failure(ParseExpenseRequest(body).error) && records == old(records)
      ensures ParseExpenseRequest(body).Success? ==>
        && r.Success?
        && DraftOf(r.value) == ParseExpenseRequest(body).value
        && r.value.id > 0 && r.value.id !in Ids(old(records))
        && records == old(records) + [r.value]
    {
      var parsed := ParseExpenseRequest(body);
      if parsed.Failure? {
        return Failure(parsed.error);
      }
      var d := parsed.value;
      var e := Expense(MaxId(records) + 1, d.amount, d.category, d.description, d.date);
      records := records + [e];
      r := Success(e);
    }

    /** Deletes the record with id `id`, or reports that there is none and changes nothing. */
    method DeleteExpense(id: int) returns (outcome: DeleteOutcome)
      requires Valid()
      modifies this
      ensures Valid()
      ensures outcome == NotFound <==> id !in Ids(old(records))
      ensures records == WithoutId(old(records), id)
      ensures id !in Ids(records)
    {
      match IndexOfId(records, id)
      case None =>
        outcome := NotFound;
      case Some(i) =>
        records := records[..i] + records[i + 1..];
        outcome := Deleted;
    }
  }
}
