/** The `countries` table as an in-memory object, and the relational meaning
    of the SQL statements the core sends to it: select, update and delete by
    case-insensitive name, COUNT, MAX(last_refreshed_at) and ORDER BY
    estimated_gdp. The MySQL pool behind `query` is replaced by this table. */
module Storage {
  import opened Records

  /** Some row's name matches `name` under `LOWER(name) = LOWER(?)`. */
  predicate HasMatch(rows: seq<Row>, name: string)
  {
    exists i :: 0 <= i < |rows| && NameMatches(rows[i].name, name)
  }

  /** The natural key: no two rows match each other case-insensitively. */
  predicate UniqueNames(rows: seq<Row>)
  {
    forall i, j :: 0 <= i < j < |rows| ==> !NameMatches(rows[i].name, rows[j].name)
  }

  /** Dropping the first row keeps names unique. */
  lemma UniqueNamesTail(rows: seq<Row>)
    requires UniqueNames(rows) && rows != []
    ensures UniqueNames(rows[1..])
  {
    forall i, j | 0 <= i < j < |rows[1..]|
      ensures !NameMatches(rows[1..][i].name, rows[1..][j].name)
    {
      assert rows[1..][i] == rows[i + 1] && rows[1..][j] == rows[j + 1];
    }
  }

  /** `SELECT * FROM countries WHERE LOWER(name) = LOWER(?)`, in storage order:
      each matching row as often as the table holds it, and nothing else. */
  function Matching(rows: seq<Row>, name: string): (r: seq<Row>)
    ensures forall x :: multiset(r)[x] == if NameMatches(x.name, name) then multiset(rows)[x] else 0
  {
    if rows == [] then []
    else
      var rest := Matching(rows[1..], name);
      assert rows == [rows[0]] + rows[1..];
      if NameMatches(rows[0].name, name) then [rows[0]] + rest else rest
  }

  /** Membership follows from the multiplicities the select keeps. */
  lemma MatchingMembers(rows: seq<Row>, name: string)
    ensures forall k :: 0 <= k < |Matching(rows, name)| ==>
      NameMatches(Matching(rows, name)[k].name, name) && Matching(rows, name)[k] in rows
    ensures forall i :: 0 <= i < |rows| && NameMatches(rows[i].name, name) ==> rows[i] in Matching(rows, name)
  {
    var r := Matching(rows, name);
    forall k | 0 <= k < |r|
      ensures NameMatches(r[k].name, name) && r[k] in rows
    {
      assert r[k] in multiset(r);
      assert multiset(r)[r[k]] > 0;
    }
    forall i | 0 <= i < |rows| && NameMatches(rows[i].name, name)
      ensures rows[i] in r
    {
      assert rows[i] in multiset(rows);
      assert multiset(r)[rows[i]] > 0;
    }
  }

  /** Number of rows `WHERE LOWER(name) = LOWER(?)` selects, counted with
      repetition. */
  function MatchCount(rows: seq<Row>, name: string): (n: nat)
    ensures n == |Matching(rows, name)|
    ensures n <= |rows|
    ensures n == 0 <==> !HasMatch(rows, name)
  {
    if rows == [] then 0
    else
      var rest := MatchCount(rows[1..], name);
      assert forall i :: 0 < i < |rows| ==> rows[i] == rows[1..][i - 1];
      (if NameMatches(rows[0].name, name) then 1 else 0) + rest
  }

  /** With unique names, a name selects at most one row. */
  lemma {:induction false} UniqueMatchAtMostOne(rows: seq<Row>, name: string)
    requires UniqueNames(rows)
    ensures MatchCount(rows, name) <= 1
  {
    if rows != [] {
      UniqueNamesTail(rows);
      UniqueMatchAtMostOne(rows[1..], name);
      if NameMatches(rows[0].name, name) {
        forall i | 0 <= i < |rows[1..]|
          ensures !NameMatches(rows[1..][i].name, name)
        {
          assert rows[1..][i] == rows[i + 1];
          assert !NameMatches(rows[0].name, rows[i + 1].name);
        }
        assert MatchCount(rows[1..], name) == 0;
      }
    }
  }

  /** `DELETE FROM countries WHERE LOWER(name) = LOWER(?)`: every other row
      stays, as often as the table holds it. */
  function WithoutName(rows: seq<Row>, name: string): (r: seq<Row>)
    ensures forall x :: multiset(r)[x] == if NameMatches(x.name, name) then 0 else multiset(rows)[x]
    ensures |r| + MatchCount(rows, name) == |rows|
    ensures forall k :: 0 <= k < |r| ==> !NameMatches(r[k].name, name) && r[k] in rows
    ensures forall i :: 0 <= i < |rows| && !NameMatches(rows[i].name, name) ==> rows[i] in r
    ensures !HasMatch(rows, name) ==> r == rows
  {
    var r := Kept(rows, name);
    KeptMembers(rows, name, r);
    KeptAllWithoutMatch(rows, name);
    r
  }

  /** The rows the delete keeps, by recursion over the table. */
  function Kept(rows: seq<Row>, name: string): (r: seq<Row>)
    ensures forall x :: multiset(r)[x] == if NameMatches(x.name, name) then 0 else multiset(rows)[x]
    ensures |r| + MatchCount(rows, name) == |rows|
  {
    if rows == [] then []
    else
      var rest := Kept(rows[1..], name);
      assert rows == [rows[0]] + rows[1..];
      if NameMatches(rows[0].name, name) then rest else [rows[0]] + rest
  }

  /** A name with no match keeps the whole table. */
  lemma {:induction false} KeptAllWithoutMatch(rows: seq<Row>, name: string)
    ensures !HasMatch(rows, name) ==> Kept(rows, name) == rows
  {
    if rows != [] && !HasMatch(rows, name) {
      assert forall i :: 0 < i < |rows| ==> rows[i] == rows[1..][i - 1];
      KeptAllWithoutMatch(rows[1..], name);
      assert !NameMatches(rows[0].name, name);
      assert rows == [rows[0]] + rows[1..];
    }
  }

  /** Membership follows from the multiplicities the delete keeps. */
  lemma KeptMembers(rows: seq<Row>, name: string, r: seq<Row>)
    requires forall x :: multiset(r)[x] == if NameMatches(x.name, name) then 0 else multiset(rows)[x]
    ensures forall k :: 0 <= k < |r| ==> !NameMatches(r[k].name, name) && r[k] in rows
    ensures forall i :: 0 <= i < |rows| && !NameMatches(rows[i].name, name) ==> rows[i] in r
  {
    forall k | 0 <= k < |r|
      ensures !NameMatches(r[k].name, name) && r[k] in rows
    {
      assert r[k] in multiset(r);
      assert multiset(r)[r[k]] > 0;
    }
    forall i | 0 <= i < |rows| && !NameMatches(rows[i].name, name)
      ensures rows[i] in r
    {
      assert rows[i] in multiset(rows);
      assert multiset(r)[rows[i]] > 0;
    }
  }

  /** The columns an `UPDATE ... SET` of the upsert assigns. */
  datatype Fields = Fields(
    capital: Option<string>,
    region: Option<string>,
    population: nat,
    currencyCode: Option<string>,
    exchangeRate: Option<real>,
    estimatedGdp: Option<real>,
    flagUrl: Option<string>)

  /** One row after the SET list; the name column is never assigned. */
  function Assign(row: Row, f: Fields, now: Timestamp): Row
  {
    Row(row.name, f.capital, f.region, f.population, f.currencyCode,
        f.exchangeRate, f.estimatedGdp, f.flagUrl, now)
  }

  /** `UPDATE countries SET ... WHERE LOWER(name) = LOWER(?)`: every matching
      row gets the fields, every other row is left as it was. */
  function UpdateMatching(rows: seq<Row>, name: string, f: Fields, now: Timestamp): (r: seq<Row>)
    ensures |r| == |rows|
    ensures forall i :: 0 <= i < |rows| ==> r[i].name == rows[i].name
    ensures forall i :: 0 <= i < |rows| && !NameMatches(rows[i].name, name) ==> r[i] == rows[i]
    ensures forall i :: 0 <= i < |rows| && NameMatches(rows[i].name, name) ==> r[i] == Assign(rows[i], f, now)
  {
    seq(|rows|, i requires 0 <= i < |rows| =>
      if NameMatches(rows[i].name, name) then Assign(rows[i], f, now) else rows[i])
  }

  /** `MAX(last_refreshed_at)`: null on an empty table, otherwise the largest stamp. */
  function MaxStamp(rows: seq<Row>): (m: Option<Timestamp>)
    ensures m.None? <==> rows == []
    ensures m.Some? ==> forall i :: 0 <= i < |rows| ==> rows[i].lastRefreshedAt <= m.value
    ensures m.Some? ==> exists i :: 0 <= i < |rows| && rows[i].lastRefreshedAt == m.value
  {
    if rows == [] then None
    else
      var rest := MaxStamp(rows[1..]);
      assert forall i :: 0 < i < |rows| ==> rows[i] == rows[1..][i - 1];
      if rest.None? || rows[0].lastRefreshedAt >= rest.value then Some(rows[0].lastRefreshedAt)
      else rest
  }

  /** MySQL's order on the nullable `estimated_gdp` column: NULL is the lowest value. */
  predicate GdpLe(x: Option<real>, y: Option<real>)
  {
    x.None? || (y.Some? && x.value <= y.value)
  }

  /** `a` may come before `b` under `ORDER BY estimated_gdp DESC` (or ASC). */
  predicate Before(a: Row, b: Row, descending: bool)
  {
    if descending then GdpLe(b.estimatedGdp, a.estimatedGdp)
    else GdpLe(a.estimatedGdp, b.estimatedGdp)
  }

  predicate SortedByGdp(s: seq<Row>, descending: bool)
  {
    forall i, j :: 0 <= i < j < |s| ==> Before(s[i], s[j], descending)
  }

  /** Places `x` in front of the first row it may precede; rows that tie keep
      their storage order. */
  function InsertByGdp(x: Row, s: seq<Row>, descending: bool): (r: seq<Row>)
    ensures |r| == |s| + 1
    ensures multiset(r) == multiset(s) + multiset{x}
  {
    if s == [] then [x]
    else if Before(x, s[0], descending) then [x] + s
    else
      assert s == [s[0]] + s[1..];
      [s[0]] + InsertByGdp(x, s[1..], descending)
  }

  /** Inserting into a sorted sequence keeps it sorted. */
  lemma {:induction false} InsertByGdpSorted(x: Row, s: seq<Row>, descending: bool)
    requires SortedByGdp(s, descending)
    ensures SortedByGdp(InsertByGdp(x, s, descending), descending)
  {
    if s != [] && !Before(x, s[0], descending) {
      var rest := InsertByGdp(x, s[1..], descending);
      assert SortedByGdp(s[1..], descending) by {
        forall i, j | 0 <= i < j < |s[1..]|
          ensures Before(s[1..][i], s[1..][j], descending)
        {
          assert s[1..][i] == s[i + 1] && s[1..][j] == s[j + 1];
        }
      }
      InsertByGdpSorted(x, s[1..], descending);
      forall k | 0 <= k < |rest|
        ensures Before(s[0], rest[k], descending)
      {
        assert rest[k] in multiset(rest);
        if rest[k] != x {
          assert rest[k] in multiset(s[1..]);
          var j :| 0 <= j < |s[1..]| && s[1..][j] == rest[k];
          assert s[j + 1] == rest[k];
        }
      }
      var r := [s[0]] + rest;
      assert InsertByGdp(x, s, descending) == r;
      forall i, j | 0 <= i < j < |r|
        ensures Before(r[i], r[j], descending)
      {
        if i > 0 {
          assert r[i] == rest[i - 1] && r[j] == rest[j - 1];
        }
      }
    }
  }

  /** The rows in `ORDER BY estimated_gdp` order (stable insertion sort). */
  function SortByGdp(s: seq<Row>, descending: bool): (r: seq<Row>)
    ensures |r| == |s|
    ensures multiset(r) == multiset(s)
    ensures SortedByGdp(r, descending)
  {
    if s == [] then []
    else
      assert s == [s[0]] + s[1..];
      InsertByGdpSorted(s[0], SortByGdp(s[1..], descending), descending);
      InsertByGdp(s[0], SortByGdp(s[1..], descending), descending)
  }

  /** The `countries` table. Every statement the core issues is one method
      or function of it. */
  class CountryTable {
    var rows: seq<Row>

    constructor ()
      ensures rows == []
    {
      rows := [];
    }

    /** `SELECT * FROM countries WHERE LOWER(name) = LOWER(?)`. */
    function FindByName(name: string): (r: seq<Row>)
      reads this
      ensures (|r| > 0) == HasMatch(rows, name)
      ensures forall k :: 0 <= k < |r| ==> NameMatches(r[k].name, name) && r[k] in rows
    {
      MatchingMembers(rows, name);
      Matching(rows, name)
    }

    /** `INSERT INTO countries (...) VALUES (...)`. */
    method Insert(row: Row)
      modifies this
      ensures rows == old(rows) + [row]
    {
      rows := rows + [row];
    }

    /** `UPDATE countries SET ... WHERE LOWER(name) = LOWER(?)`. */
    method UpdateByName(name: string, f: Fields, now: Timestamp)
      modifies this
      ensures rows == UpdateMatching(old(rows), name, f, now)
    {
      rows := UpdateMatching(rows, name, f, now);
    }

    /** `DELETE FROM countries WHERE LOWER(name) = LOWER(?)`, returning `affectedRows`. */
    method DeleteByName(name: string) returns (affected: nat)
      modifies this
      ensures rows == WithoutName(old(rows), name)
      ensures affected == MatchCount(old(rows), name)
      ensures affected == |old(rows)| - |rows|
    {
      affected := MatchCount(rows, name);
      rows := WithoutName(rows, name);
    }
  }
}
