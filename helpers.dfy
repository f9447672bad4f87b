/** helpers.js: bounded random integers, the list query builder and its
    meaning over the table, the case-insensitive upsert, and the summary. */
module Helpers {
  import opened Records
  import opened Storage

  // ---------------------------------------------------------------------
  // getRandomIntRange

  /** `Math.ceil` on a real. */
  function Ceil(x: real): (n: int)
    ensures n as real >= x && (n - 1) as real < x
  {
    -((-x).Floor)
  }

  lemma MulLe(a: real, b: real, c: real)
    requires a <= b && c >= 0.0
    ensures a * c <= b * c
  {
    assert (b - a) * c >= 0.0;
  }

  lemma MulLt(a: real, b: real, c: real)
    requires a < b && c > 0.0
    ensures a * c < b * c
  {
    assert (b - a) * c > 0.0;
  }

  /** `Math.floor(u * n)` for a draw `u` in [0, 1) lies in [0, n - 1], or is
      at most 0 when `n` is not positive. */
  lemma ScaledDrawFloor(u: real, n: int)
    requires 0.0 <= u < 1.0
    ensures n > 0 ==> 0 <= (u * n as real).Floor < n
    ensures n <= 0 ==> (u * n as real).Floor <= 0
  {
    var x := u * n as real;
    if n > 0 {
      MulLe(0.0, u, n as real);
      MulLt(u, 1.0, n as real);
    } else {
      MulLe(n as real, 0.0, u);
    }
  }

  /** `getRandomIntRange(min, max)` with `u` the value `Math.random()` returned. */
  function RandomIntRange(min: real, max: real, u: real): (r: int)
    requires 0.0 <= u < 1.0
    ensures Ceil(min) <= max.Floor ==> Ceil(min) <= r <= max.Floor
    ensures Ceil(min) > max.Floor ==> r <= Ceil(min)
  {
    var lo, hi := Ceil(min), max.Floor;
    ScaledDrawFloor(u, hi - lo + 1);
    (u * (hi - lo + 1) as real).Floor + lo
  }

  /** Every integer of the range is drawn for some `u`. */
  lemma RandomIntRangeCovers(min: real, max: real, k: int)
    requires Ceil(min) <= k <= max.Floor
    ensures exists u :: 0.0 <= u < 1.0 && RandomIntRange(min, max, u) == k
  {
    var lo, hi := Ceil(min), max.Floor;
    var n := (hi - lo + 1) as real;
    var u := (k - lo) as real / n;
    assert u * n == (k - lo) as real;
    assert u < 1.0 by {
      assert (k - lo) as real < n;
    }
    assert RandomIntRange(min, max, u) == k;
  }

  /** The GDP factor `getRandomIntRange(1000, 2000)` lies in [1000, 2000]. */
  lemma GdpFactorBounds(u: real)
    requires 0.0 <= u < 1.0
    ensures 1000 <= RandomIntRange(1000.0, 2000.0, u) <= 2000
  {
    assert Ceil(1000.0) == 1000;
    assert (2000.0).Floor == 2000;
  }

  // ---------------------------------------------------------------------
  // retrieveCountriesFromDB

  /** The value a filter parameter pushes onto `values`, if it is truthy. */
  function Present(o: Option<string>): seq<string>
  {
    if Truthy(o) then [o.value] else []
  }

  /** The fixed pieces of the list query's text. */
  const SelectAll := "SELECT * FROM countries"
  const RegionCondition := "region = ?"
  const CurrencyCondition := "currency_code = ?"
  const WhereKeyword := " WHERE "
  const AndSeparator := " AND "
  const OrderDesc := " ORDER BY estimated_gdp DESC"
  const OrderAsc := " ORDER BY estimated_gdp ASC"

  /** The `conditions` array: region first, then currency. */
  function Conditions(region: Option<string>, currency: Option<string>): (r: seq<string>)
    ensures |r| == |Present(region)| + |Present(currency)|
    ensures forall k :: 0 <= k < |r| ==> r[k] == RegionCondition || r[k] == CurrencyCondition
    ensures Truthy(region) ==> r[0] == RegionCondition
    ensures Truthy(currency) ==> r[|r| - 1] == CurrencyCondition
  {
    (if Truthy(region) then [RegionCondition] else []) +
    (if Truthy(currency) then [CurrencyCondition] else [])
  }

  /** `parts.join(sep)`. */
  function Join(parts: seq<string>, sep: string): string
  {
    if parts == [] then ""
    else if |parts| == 1 then parts[0]
    else parts[0] + sep + Join(parts[1..], sep)
  }

  /** A join starts with the first part and ends with the last. */
  lemma {:induction false} JoinEnds(parts: seq<string>, sep: string)
    requires parts != []
    ensures |parts[0]| <= |Join(parts, sep)| && Join(parts, sep)[..|parts[0]|] == parts[0]
    ensures var last := parts[|parts| - 1]; var r := Join(parts, sep);
      |last| <= |r| && r[|r| - |last|..] == last
  {
    if |parts| > 1 {
      JoinEnds(parts[1..], sep);
      var rest := Join(parts[1..], sep);
      assert Join(parts, sep) == parts[0] + sep + rest;
      assert parts[1..][|parts[1..]| - 1] == parts[|parts| - 1];
    }
  }

  /** The `" WHERE " + conditions.join(" AND ")` suffix, or nothing. */
  function WhereClause(region: Option<string>, currency: Option<string>): (r: string)
    ensures r == "" <==> Conditions(region, currency) == []
    ensures r != "" ==> |WhereKeyword| <= |r| && r[..|WhereKeyword|] == WhereKeyword
  {
    var conditions := Conditions(region, currency);
    if |conditions| > 0 then WhereKeyword + Join(conditions, AndSeparator) else ""
  }

  /** How the `sort` parameter orders the list. */
  datatype SortOrder = Unordered | GdpDesc | GdpAsc

  /** `sort` is compared lower-cased; any other value leaves the order alone. */
  function SortOrderOf(sort: Option<string>): (o: SortOrder)
    ensures o == GdpDesc <==> Truthy(sort) && Lower(sort.value) == "gdp_desc"
    ensures o == GdpAsc <==> Truthy(sort) && Lower(sort.value) == "gdp_asc"
  {
    if !Truthy(sort) then Unordered
    else if Lower(sort.value) == "gdp_desc" then GdpDesc
    else if Lower(sort.value) == "gdp_asc" then GdpAsc
    else Unordered
  }

  function OrderClause(order: SortOrder): string
  {
    match order
    case Unordered => ""
    case GdpDesc => OrderDesc
    case GdpAsc => OrderAsc
  }

  /** Number of `?` placeholders in a SQL text. */
  function Placeholders(sql: string): nat
  {
    multiset(sql)['?']
  }

  lemma NoPlaceholder(s: string)
    requires '?' !in s
    ensures Placeholders(s) == 0
  {
  }

  lemma PlaceholdersAppend(a: string, b: string)
    ensures Placeholders(a + b) == Placeholders(a) + Placeholders(b)
  {
  }

  /** A text with exactly one `?`, at index `k`. */
  lemma OnePlaceholder(s: string, k: nat)
    requires k < |s| && s[k] == '?' && '?' !in s[..k] && '?' !in s[k + 1..]
    ensures Placeholders(s) == 1
  {
    assert s == s[..k] + [s[k]] + s[k + 1..];
  }

  lemma RegionConditionPlaceholder()
    ensures Placeholders(RegionCondition) == 1
  {
    OnePlaceholder(RegionCondition, 9);
  }

  lemma CurrencyConditionPlaceholder()
    ensures Placeholders(CurrencyCondition) == 1
  {
    OnePlaceholder(CurrencyCondition, 16);
  }

  lemma WhereKeywordHasNoPlaceholder()
    ensures Placeholders(WhereKeyword) == 0
  {
    NoPlaceholder(WhereKeyword);
  }

  lemma AndSeparatorHasNoPlaceholder()
    ensures Placeholders(AndSeparator) == 0
  {
    NoPlaceholder(AndSeparator);
  }

  lemma SelectAllHasNoPlaceholder()
    ensures Placeholders(SelectAll) == 0
  {
    NoPlaceholder(SelectAll);
  }

  lemma OrderDescHasNoPlaceholder()
    ensures Placeholders(OrderDesc) == 0
  {
    NoPlaceholder(OrderDesc);
  }

  lemma OrderAscHasNoPlaceholder()
    ensures Placeholders(OrderAsc) == 0
  {
    NoPlaceholder(OrderAsc);
  }

  lemma RegionWherePlaceholders()
    ensures Placeholders(WhereKeyword + RegionCondition) == 1
  {
    RegionConditionPlaceholder();
    WhereKeywordHasNoPlaceholder();
    PlaceholdersAppend(WhereKeyword, RegionCondition);
  }

  lemma CurrencyWherePlaceholders()
    ensures Placeholders(WhereKeyword + CurrencyCondition) == 1
  {
    CurrencyConditionPlaceholder();
    WhereKeywordHasNoPlaceholder();
    PlaceholdersAppend(WhereKeyword, CurrencyCondition);
  }

  lemma BothWherePlaceholders()
    ensures Placeholders(WhereKeyword + RegionCondition + AndSeparator + CurrencyCondition) == 2
  {
    RegionWherePlaceholders();
    CurrencyConditionPlaceholder();
    AndSeparatorHasNoPlaceholder();
    PlaceholdersAppend(WhereKeyword + RegionCondition, AndSeparator);
    PlaceholdersAppend(WhereKeyword + RegionCondition + AndSeparator, CurrencyCondition);
  }

  /** The WHERE clause for each combination of truthy filters. */
  lemma WhereClauseCases(region: Option<string>, currency: Option<string>)
    ensures !Truthy(region) && !Truthy(currency) ==> WhereClause(region, currency) == ""
    ensures Truthy(region) && !Truthy(currency) ==> WhereClause(region, currency) == WhereKeyword + RegionCondition
    ensures !Truthy(region) && Truthy(currency) ==> WhereClause(region, currency) == WhereKeyword + CurrencyCondition
    ensures Truthy(region) && Truthy(currency) ==>
      WhereClause(region, currency) == WhereKeyword + RegionCondition + AndSeparator + CurrencyCondition
  {
    if Truthy(region) && Truthy(currency) {
      assert Conditions(region, currency) == [RegionCondition, CurrencyCondition];
      assert Join([RegionCondition, CurrencyCondition], AndSeparator) == RegionCondition + AndSeparator + CurrencyCondition;
    } else if Truthy(region) {
      assert Conditions(region, currency) == [RegionCondition];
    } else if Truthy(currency) {
      assert Conditions(region, currency) == [CurrencyCondition];
    }
  }

  /** The WHERE clause carries one placeholder per truthy filter. */
  lemma WherePlaceholders(region: Option<string>, currency: Option<string>)
    ensures Placeholders(WhereClause(region, currency)) == |Present(region)| + |Present(currency)|
  {
    WhereClauseCases(region, currency);
    if Truthy(region) && Truthy(currency) {
      BothWherePlaceholders();
    } else if Truthy(region) {
      RegionWherePlaceholders();
    } else if Truthy(currency) {
      CurrencyWherePlaceholders();
    }
  }

  lemma OrderPlaceholders(order: SortOrder)
    ensures Placeholders(OrderClause(order)) == 0
  {
    match order
    case Unordered =>
    case GdpDesc => OrderDescHasNoPlaceholder();
    case GdpAsc => OrderAscHasNoPlaceholder();
  }

  /** The query text and the `values` list of `retrieveCountriesFromDB`. */
  method BuildListQuery(region: Option<string>, currency: Option<string>, sort: Option<string>)
    returns (sql: string, values: seq<string>)
    ensures values == Present(region) + Present(currency)
    ensures Placeholders(sql) == |values|
    ensures sql == SelectAll + WhereClause(region, currency) + OrderClause(SortOrderOf(sort))
  {
    sql := SelectAll;
    var conditions: seq<string> := [];
    values := [];

    if Truthy(region) {
      conditions := conditions + [RegionCondition];
      values := values + [region.value];
    }
    if Truthy(currency) {
      conditions := conditions + [CurrencyCondition];
      values := values + [currency.value];
    }
    assert conditions == Conditions(region, currency);

    if |conditions| > 0 {
      sql := sql + (WhereKeyword + Join(conditions, AndSeparator));
    }
    assert sql == SelectAll + WhereClause(region, currency);
    ghost var filtered := sql;

    if Truthy(sort) {
      var lowered := Lower(sort.value);
      if lowered == "gdp_desc" {
        sql := sql + OrderDesc;
      } else if lowered == "gdp_asc" {
        sql := sql + OrderAsc;
      }
    }
    assert sql == filtered + OrderClause(SortOrderOf(sort));
    PlaceholdersMatchValues(sql, values, region, currency, sort);
  }

  /** The query text built from the filters has one `?` per bound value. */
  lemma PlaceholdersMatchValues(sql: string, values: seq<string>, region: Option<string>,
                                currency: Option<string>, sort: Option<string>)
    requires sql == SelectAll + WhereClause(region, currency) + OrderClause(SortOrderOf(sort))
    requires values == Present(region) + Present(currency)
    ensures Placeholders(sql) == |values|
  {
    QueryPlaceholders(region, currency, SortOrderOf(sort));
  }

  lemma QueryPlaceholders(region: Option<string>, currency: Option<string>, order: SortOrder)
    ensures Placeholders(SelectAll + WhereClause(region, currency) + OrderClause(order))
         == |Present(region)| + |Present(currency)|
  {
    SelectAllHasNoPlaceholder();
    WherePlaceholders(region, currency);
    OrderPlaceholders(order);
    PlaceholdersAppend(SelectAll, WhereClause(region, currency));
    PlaceholdersAppend(SelectAll + WhereClause(region, currency), OrderClause(order));
  }

  /** A WHERE clause appears exactly when some filter is truthy; with both
      filters their conditions are joined by " AND ", region first. */
  lemma WhereClauseShape(region: Option<string>, currency: Option<string>)
    ensures WhereClause(region, currency) == "" <==> !Truthy(region) && !Truthy(currency)
    ensures Truthy(region) && Truthy(currency) ==>
      WhereClause(region, currency) == WhereKeyword + RegionCondition + AndSeparator + CurrencyCondition
  {
    WhereClauseCases(region, currency);
  }

  /** The `sort` switch ignores case: "GDP_DESC" orders like "gdp_desc". */
  lemma SortIgnoresCase(a: string, b: string)
    requires Lower(a) == Lower(b)
    ensures SortOrderOf(Some(a)) == SortOrderOf(Some(b))
  {
    assert |a| == |Lower(a)| == |Lower(b)| == |b|;
  }

  lemma UpperCaseSortDescends()
    ensures SortOrderOf(Some("GDP_DESC")) == GdpDesc
    ensures SortOrderOf(Some("Gdp_Asc")) == GdpAsc
    ensures SortOrderOf(Some("population")) == Unordered
  {
    assert Lower("GDP_DESC") == "gdp_desc";
    assert Lower("Gdp_Asc") == "gdp_asc";
    assert Lower("population")[0] == 'p';
  }

  /** `region = ? AND currency_code = ?` with the bound values, on one row. */
  predicate PassesFilters(row: Row, region: Option<string>, currency: Option<string>)
  {
    (Truthy(region) ==> row.region == region) &&
    (Truthy(currency) ==> row.currencyCode == currency)
  }

  /** The rows the WHERE clause keeps, in storage order. */
  function FilterRows(rows: seq<Row>, region: Option<string>, currency: Option<string>): (r: seq<Row>)
    ensures forall x :: multiset(r)[x] == if PassesFilters(x, region, currency) then multiset(rows)[x] else 0
    ensures forall k :: 0 <= k < |r| ==> PassesFilters(r[k], region, currency)
    ensures multiset(r) <= multiset(rows)
    ensures forall i :: 0 <= i < |rows| && PassesFilters(rows[i], region, currency) ==> rows[i] in r
  {
    if rows == [] then []
    else
      var rest := FilterRows(rows[1..], region, currency);
      assert rows == [rows[0]] + rows[1..];
      assert forall i :: 0 < i < |rows| ==> rows[i] == rows[1..][i - 1];
      if PassesFilters(rows[0], region, currency) then [rows[0]] + rest else rest
  }

  /** What the list endpoint returns for a table: the filtered rows, in GDP
      order when `sort` asks for it and in storage order otherwise. */
  function ListCountries(rows: seq<Row>, region: Option<string>, currency: Option<string>,
                         sort: Option<string>): (r: seq<Row>)
    ensures multiset(r) == multiset(FilterRows(rows, region, currency))
    ensures forall k :: 0 <= k < |r| ==> PassesFilters(r[k], region, currency) && r[k] in rows
    ensures forall i :: 0 <= i < |rows| && PassesFilters(rows[i], region, currency) ==> rows[i] in r
    ensures SortOrderOf(sort) == GdpDesc ==> SortedByGdp(r, true)
    ensures SortOrderOf(sort) == GdpAsc ==> SortedByGdp(r, false)
    ensures SortOrderOf(sort) == Unordered ==> r == FilterRows(rows, region, currency)
  {
    var kept := FilterRows(rows, region, currency);
    var r := match SortOrderOf(sort)
      case Unordered => kept
      case GdpDesc => SortByGdp(kept, true)
      case GdpAsc => SortByGdp(kept, false);
    SameMembers(r, kept, rows);
    r
  }

  /** What a multiset-included sequence holds, the larger one holds. */
  lemma SameMembers(r: seq<Row>, kept: seq<Row>, rows: seq<Row>)
    requires multiset(r) == multiset(kept) && multiset(kept) <= multiset(rows)
    ensures forall k :: 0 <= k < |r| ==> r[k] in kept && r[k] in rows
    ensures forall k :: 0 <= k < |kept| ==> kept[k] in r
  {
    forall k | 0 <= k < |r|
      ensures r[k] in kept && r[k] in rows
    {
      assert r[k] in multiset(r);
      assert r[k] in multiset(rows);
    }
    forall k | 0 <= k < |kept|
      ensures kept[k] in r
    {
      assert kept[k] in multiset(kept);
    }
  }

  /** `retrieveCountriesFromDB`: the query it sends and the rows the table answers with. */
  method RetrieveCountriesFromDB(db: CountryTable, region: Option<string>, currency: Option<string>,
                                 sort: Option<string>)
    returns (sql: string, values: seq<string>, result: seq<Row>)
    ensures values == Present(region) + Present(currency)
    ensures sql == SelectAll + WhereClause(region, currency) + OrderClause(SortOrderOf(sort))
    ensures Placeholders(sql) == |values|
    ensures multiset(result) == multiset(FilterRows(db.rows, region, currency))
    ensures forall k :: 0 <= k < |result| ==> PassesFilters(result[k], region, currency)
    ensures SortOrderOf(sort) == GdpDesc ==> SortedByGdp(result, true)
    ensures SortOrderOf(sort) == GdpAsc ==> SortedByGdp(result, false)
  {
    sql, values := BuildListQuery(region, currency, sort);
    result := ListCountries(db.rows, region, currency, sort);
  }

  // ---------------------------------------------------------------------
  // saveCountryToDB

  /** `0.9 + Math.random() * 0.2`. */
  function SmoothingFactor(u: real): (m: real)
    requires 0.0 <= u < 1.0
    ensures 0.9 <= m < 1.1
  {
    0.9 + u * 0.2
  }

  /** `country.estimatedGdp * factor`, where JavaScript turns a null GDP into 0. */
  function Smoothed(gdp: Option<real>, u: real): (g: real)
    requires 0.0 <= u < 1.0
    ensures gdp.None? ==> g == 0.0
    ensures gdp.Some? && gdp.value >= 0.0 ==> 0.9 * gdp.value <= g <= 1.1 * gdp.value
    ensures gdp.Some? && gdp.value > 0.0 ==> g < 1.1 * gdp.value
    ensures gdp.Some? && gdp.value < 0.0 ==> 1.1 * gdp.value < g <= 0.9 * gdp.value
  {
    var base := if gdp.Some? then gdp.value else 0.0;
    var scaled := base * SmoothingFactor(u);
    ScaleBounds(base, SmoothingFactor(u), scaled);
    scaled
  }

  lemma ScaleBounds(base: real, m: real, scaled: real)
    requires 0.9 <= m < 1.1 && scaled == base * m
    ensures base == 0.0 ==> scaled == 0.0
    ensures base >= 0.0 ==> 0.9 * base <= scaled <= 1.1 * base
    ensures base > 0.0 ==> scaled < 1.1 * base
    ensures base < 0.0 ==> 1.1 * base < scaled <= 0.9 * base
  {
    if base >= 0.0 {
      MulLe(0.9, m, base);
      MulLe(m, 1.1, base);
      if base > 0.0 {
        MulLt(m, 1.1, base);
      }
    } else {
      NegativeScaleBounds(base, m, scaled);
    }
  }

  lemma NegativeScaleBounds(base: real, m: real, scaled: real)
    requires 0.9 <= m < 1.1 && scaled == base * m && base < 0.0
    ensures 1.1 * base < scaled <= 0.9 * base
  {
    var c := -base;
    MulLt(m, 1.1, c);
    MulLe(0.9, m, c);
    assert m * c == -scaled;
  }

  /** The SET list of the update branch. */
  function UpdateFields(c: RefinedCountry, u: real): (f: Fields)
    requires 0.0 <= u < 1.0
    ensures f.capital == OrNull(c.capital) && f.region == OrNull(c.region) && f.flagUrl == OrNull(c.flag)
    ensures f.capital != Some("") && f.region != Some("") && f.flagUrl != Some("")
    ensures Truthy(c.capital) ==> f.capital == c.capital
    ensures f.estimatedGdp == Some(Smoothed(c.estimatedGdp, u))
    ensures f.estimatedGdp.Some?
    ensures c.estimatedGdp.None? ==> f.estimatedGdp == Some(0.0)
    ensures f.population == c.population && f.currencyCode == c.currencyCode && f.exchangeRate == c.exchangeRate
  {
    Fields(OrNull(c.capital), OrNull(c.region), c.population, c.currencyCode,
           c.exchangeRate, Some(Smoothed(c.estimatedGdp, u)), OrNull(c.flag))
  }

  /** The VALUES list of the insert branch. */
  function InsertedRow(c: RefinedCountry, now: Timestamp): (r: Row)
    ensures r.name == c.name && r.lastRefreshedAt == now
    ensures r.capital == OrNull(c.capital) && r.region == OrNull(c.region) && r.flagUrl == OrNull(c.flag)
    ensures r.population == c.population && r.currencyCode == c.currencyCode && r.exchangeRate == c.exchangeRate
    ensures r.capital != Some("") && r.region != Some("") && r.flagUrl != Some("")
    ensures Truthy(c.capital) ==> r.capital == c.capital
    ensures r.estimatedGdp == c.estimatedGdp
  {
    Row(c.name, OrNull(c.capital), OrNull(c.region), c.population, c.currencyCode,
        c.exchangeRate, c.estimatedGdp, OrNull(c.flag), now)
  }

  /** The table after `saveCountryToDB(c)`: update every case-insensitive
      match, or else insert one row; a failed write changes nothing. */
  function SaveSpec(rows: seq<Row>, c: RefinedCountry, d: Draw, now: Timestamp): (r: seq<Row>)
    requires 0.0 <= d.smoothing < 1.0
    ensures d.writeFails ==> r == rows
    ensures !d.writeFails && HasMatch(rows, c.name) ==>
      |r| == |rows| &&
      (forall i :: 0 <= i < |rows| ==> r[i].name == rows[i].name) &&
      (forall i :: 0 <= i < |rows| && !NameMatches(rows[i].name, c.name) ==> r[i] == rows[i]) &&
      (forall i :: 0 <= i < |rows| && NameMatches(rows[i].name, c.name) ==>
         r[i].capital == OrNull(c.capital) && r[i].region == OrNull(c.region) &&
         r[i].population == c.population && r[i].currencyCode == c.currencyCode &&
         r[i].exchangeRate == c.exchangeRate && r[i].flagUrl == OrNull(c.flag) &&
         r[i].estimatedGdp == Some(Smoothed(c.estimatedGdp, d.smoothing)) &&
         r[i].lastRefreshedAt == now)
    ensures !d.writeFails && !HasMatch(rows, c.name) ==>
      |r| == |rows| + 1 && r[..|rows|] == rows &&
      r[|rows|].name == c.name && r[|rows|].capital == OrNull(c.capital) &&
      r[|rows|].region == OrNull(c.region) && r[|rows|].population == c.population &&
      r[|rows|].currencyCode == c.currencyCode && r[|rows|].exchangeRate == c.exchangeRate &&
      r[|rows|].estimatedGdp == c.estimatedGdp && r[|rows|].flagUrl == OrNull(c.flag) &&
      r[|rows|].lastRefreshedAt == now
  {
    if d.writeFails then rows
    else if HasMatch(rows, c.name) then UpdateMatching(rows, c.name, UpdateFields(c, d.smoothing), now)
    else rows + [InsertedRow(c, now)]
  }

  /** `saveCountryToDB`: look the name up, then update or insert; an error is
      swallowed and leaves the table as it was. */
  method SaveCountryToDB(db: CountryTable, country: RefinedCountry, d: Draw, now: Timestamp)
    requires 0.0 <= d.smoothing < 1.0
    modifies db
    ensures db.rows == SaveSpec(old(db.rows), country, d, now)
  {
    var existing := db.FindByName(country.name);
    if |existing| > 0 {
      var f := UpdateFields(country, d.smoothing);
      if !d.writeFails {
        db.UpdateByName(country.name, f, now);
      }
    } else {
      var row := InsertedRow(country, now);
      if !d.writeFails {
        db.Insert(row);
      }
    }
  }

  /** After a save that did not fail, the name is in the table. */
  lemma SaveMakesPresent(rows: seq<Row>, c: RefinedCountry, d: Draw, now: Timestamp)
    requires 0.0 <= d.smoothing < 1.0 && !d.writeFails
    ensures HasMatch(SaveSpec(rows, c, d, now), c.name)
  {
    var r := SaveSpec(rows, c, d, now);
    if HasMatch(rows, c.name) {
      var i :| 0 <= i < |rows| && NameMatches(rows[i].name, c.name);
      assert r[i].name == rows[i].name;
    } else {
      assert r[|rows|].name == c.name;
    }
  }

  /** A save never removes a name that was there. */
  lemma SaveKeepsPresent(rows: seq<Row>, c: RefinedCountry, d: Draw, now: Timestamp, name: string)
    requires 0.0 <= d.smoothing < 1.0
    requires HasMatch(rows, name)
    ensures HasMatch(SaveSpec(rows, c, d, now), name)
  {
    var r := SaveSpec(rows, c, d, now);
    var i :| 0 <= i < |rows| && NameMatches(rows[i].name, name);
    if !d.writeFails && !HasMatch(rows, c.name) {
      assert r[..|rows|][i] == rows[i];
    }
    assert r[i].name == rows[i].name;
  }

  /** The upsert keeps names unique under case-insensitive comparison. */
  lemma SavePreservesUniqueNames(rows: seq<Row>, c: RefinedCountry, d: Draw, now: Timestamp)
    requires 0.0 <= d.smoothing < 1.0
    requires UniqueNames(rows)
    ensures UniqueNames(SaveSpec(rows, c, d, now))
  {
    var r := SaveSpec(rows, c, d, now);
    if !d.writeFails && !HasMatch(rows, c.name) {
      forall i, j | 0 <= i < j < |r|
        ensures !NameMatches(r[i].name, r[j].name)
      {
        assert r[..|rows|][i] == rows[i];
        if j < |rows| {
          assert r[..|rows|][j] == rows[j];
        } else {
          assert !NameMatches(rows[i].name, c.name);
        }
      }
    }
  }

  /** Saving a name and then a case variant of it ("Japan", then "japan")
      leaves one row for it: the second save adds no row. */
  lemma CaseVariantUpdatesOneRow(rows: seq<Row>, a: RefinedCountry, b: RefinedCountry,
                                 da: Draw, db: Draw, t1: Timestamp, t2: Timestamp)
    requires 0.0 <= da.smoothing < 1.0 && 0.0 <= db.smoothing < 1.0
    requires !da.writeFails && NameMatches(a.name, b.name)
    ensures |SaveSpec(SaveSpec(rows, a, da, t1), b, db, t2)| == |SaveSpec(rows, a, da, t1)|
    ensures |SaveSpec(rows, a, da, t1)| <= |rows| + 1
  {
    var r1 := SaveSpec(rows, a, da, t1);
    SaveMakesPresent(rows, a, da, t1);
    var i :| 0 <= i < |r1| && NameMatches(r1[i].name, a.name);
    assert NameMatches(r1[i].name, b.name);
  }

  /** On update a null computed GDP is stored as 0, the way JavaScript
      evaluates `null * m`. */
  lemma UpdateStoresZeroForNullGdp(rows: seq<Row>, c: RefinedCountry, d: Draw, now: Timestamp, i: int)
    requires 0.0 <= d.smoothing < 1.0 && !d.writeFails
    requires c.estimatedGdp.None?
    requires 0 <= i < |rows| && NameMatches(rows[i].name, c.name)
    ensures SaveSpec(rows, c, d, now)[i].estimatedGdp == Some(0.0)
  {
  }

  // ---------------------------------------------------------------------
  // getSummaryData

  /** One entry of `top5Countries`: `SELECT name, estimated_gdp`. */
  datatype TopEntry = TopEntry(name: string, estimatedGdp: Option<real>)

  datatype Summary = Summary(
    totalCountries: nat,
    top5Countries: seq<TopEntry>,
    lastRefreshedAt: Option<Timestamp>)

  function Project(row: Row): TopEntry
  {
    TopEntry(row.name, row.estimatedGdp)
  }

  /** `SELECT name, estimated_gdp` over a sequence of rows. */
  function Projections(rows: seq<Row>): (r: seq<TopEntry>)
    ensures |r| == |rows|
    ensures forall i :: 0 <= i < |rows| ==> r[i] == Project(rows[i])
  {
    seq(|rows|, i requires 0 <= i < |rows| => Project(rows[i]))
  }

  lemma ProjectionsAppend(a: seq<Row>, b: seq<Row>)
    ensures Projections(a + b) == Projections(a) + Projections(b)
  {
  }

  /** Projecting two permutations of each other gives permutations of each other. */
  lemma {:induction false} ProjectionsPermutation(a: seq<Row>, b: seq<Row>)
    requires multiset(a) == multiset(b)
    ensures multiset(Projections(a)) == multiset(Projections(b))
    decreases |a|
  {
    if a == [] {
      assert |multiset(b)| == 0;
    } else {
      assert a[0] in multiset(b);
      var j :| 0 <= j < |b| && b[j] == a[0];
      var b' := b[..j] + b[j + 1..];
      assert b == b[..j] + [b[j]] + b[j + 1..];
      assert a == [a[0]] + a[1..];
      assert multiset(b) == multiset(b[..j]) + multiset{b[j]} + multiset(b[j + 1..]);
      assert multiset(b') == multiset(b[..j]) + multiset(b[j + 1..]);
      assert multiset(a) == multiset{a[0]} + multiset(a[1..]);
      assert multiset(b) == multiset{a[0]} + multiset(b');
      assert multiset(a[1..]) == multiset(a) - multiset{a[0]};
      assert multiset(b') == multiset(b) - multiset{a[0]};
      ProjectionsPermutation(a[1..], b');
      ProjectionsAppend([a[0]], a[1..]);
      ProjectionsAppend(b[..j] + [b[j]], b[j + 1..]);
      ProjectionsAppend(b[..j], [b[j]]);
      ProjectionsAppend(b[..j], b[j + 1..]);
    }
  }

  /** The first `n` entries of the GDP order, projected, are drawn from the
      table's rows without repetition beyond the table's own. */
  lemma TopIsSubMultiset(rows: seq<Row>, sorted: seq<Row>, n: int)
    requires multiset(sorted) == multiset(rows) && 0 <= n <= |sorted|
    ensures multiset(Projections(sorted[..n])) <= multiset(Projections(rows))
  {
    assert sorted == sorted[..n] + sorted[n..];
    ProjectionsAppend(sorted[..n], sorted[n..]);
    ProjectionsPermutation(sorted, rows);
  }

  function Min(a: int, b: int): int
  {
    if a <= b then a else b
  }

  /** `getSummaryData`: the row count, the first five rows of `ORDER BY
      estimated_gdp DESC`, and `MAX(last_refreshed_at)`. */
  function SummaryData(rows: seq<Row>): (s: Summary)
    ensures s.totalCountries == |rows|
    ensures |s.top5Countries| == Min(5, |rows|)
    ensures forall i, j :: 0 <= i < j < |s.top5Countries| ==>
      GdpLe(s.top5Countries[j].estimatedGdp, s.top5Countries[i].estimatedGdp)
    ensures multiset(s.top5Countries) <= multiset(Projections(rows))
    ensures forall k :: 0 <= k < |s.top5Countries| ==>
      exists i :: 0 <= i < |rows| && Project(rows[i]) == s.top5Countries[k]
    ensures forall i :: 0 <= i < |rows| ==>
      Project(rows[i]) in s.top5Countries ||
      (|s.top5Countries| == 5 && GdpLe(rows[i].estimatedGdp, s.top5Countries[4].estimatedGdp))
    ensures |s.top5Countries| == 5 ==> forall x: TopEntry ::
      !GdpLe(x.estimatedGdp, s.top5Countries[4].estimatedGdp) ==>
        multiset(s.top5Countries)[x] == multiset(Projections(rows))[x]
    ensures s.lastRefreshedAt.None? <==> rows == []
    ensures s.lastRefreshedAt.Some? ==> forall i :: 0 <= i < |rows| ==> rows[i].lastRefreshedAt <= s.lastRefreshedAt.value
    ensures s.lastRefreshedAt.Some? ==> exists i :: 0 <= i < |rows| && rows[i].lastRefreshedAt == s.lastRefreshedAt.value
  {
    var sorted := SortByGdp(rows, true);
    var n := Min(5, |rows|);
    var top := Projections(sorted[..n]);
    TopFiveFacts(rows, sorted, top);
    TopIsSubMultiset(rows, sorted, n);
    TopAboveFifthComplete(rows, sorted);
    Summary(|rows|, top, MaxStamp(rows))
  }

  /** An entry whose GDP is strictly above the fifth of the GDP order sorts
      before index 5 wherever it occurs, so the first five hold every copy. */
  lemma TopAboveFifthComplete(rows: seq<Row>, sorted: seq<Row>)
    requires multiset(sorted) == multiset(rows) && SortedByGdp(sorted, true)
    ensures 5 <= |sorted| ==> forall x: TopEntry :: !GdpLe(x.estimatedGdp, sorted[4].estimatedGdp) ==>
      multiset(Projections(sorted[..5]))[x] == multiset(Projections(rows))[x]
  {
    if |sorted| < 5 { return; }
    assert sorted == sorted[..5] + sorted[5..];
    ProjectionsAppend(sorted[..5], sorted[5..]);
    ProjectionsPermutation(sorted, rows);
    var tail := Projections(sorted[5..]);
    forall x: TopEntry | !GdpLe(x.estimatedGdp, sorted[4].estimatedGdp)
      ensures multiset(Projections(sorted[..5]))[x] == multiset(Projections(rows))[x]
    {
      forall k | 0 <= k < |tail|
        ensures tail[k] != x
      {
        assert sorted[5..][k] == sorted[k + 5];
        assert Before(sorted[4], sorted[k + 5], true);
      }
      assert x !in multiset(tail);
    }
  }

  lemma TopFiveFacts(rows: seq<Row>, sorted: seq<Row>, top: seq<TopEntry>)
    requires sorted == SortByGdp(rows, true)
    requires |top| == Min(5, |rows|)
    requires forall k :: 0 <= k < |top| ==> top[k] == Project(sorted[k])
    ensures forall k :: 0 <= k < |top| ==> exists i :: 0 <= i < |rows| && Project(rows[i]) == top[k]
    ensures forall i :: 0 <= i < |rows| ==>
      Project(rows[i]) in top || (|top| == 5 && GdpLe(rows[i].estimatedGdp, top[4].estimatedGdp))
  {
    forall k | 0 <= k < |top|
      ensures exists i :: 0 <= i < |rows| && Project(rows[i]) == top[k]
    {
      TopEntryFromRow(rows, sorted, k);
    }
    forall i | 0 <= i < |rows|
      ensures Project(rows[i]) in top || (|top| == 5 && GdpLe(rows[i].estimatedGdp, top[4].estimatedGdp))
    {
      RowInTopOrBelow(rows, sorted, top, i);
    }
  }

  lemma TopEntryFromRow(rows: seq<Row>, sorted: seq<Row>, k: int)
    requires multiset(sorted) == multiset(rows)
    requires 0 <= k < |sorted|
    ensures exists i :: 0 <= i < |rows| && rows[i] == sorted[k]
  {
    assert sorted[k] in multiset(sorted);
    assert sorted[k] in rows;
  }

  lemma RowInTopOrBelow(rows: seq<Row>, sorted: seq<Row>, top: seq<TopEntry>, i: int)
    requires multiset(sorted) == multiset(rows) && SortedByGdp(sorted, true) && |sorted| == |rows|
    requires |top| == Min(5, |rows|)
    requires forall k :: 0 <= k < |top| ==> top[k] == Project(sorted[k])
    requires 0 <= i < |rows|
    ensures Project(rows[i]) in top || (|top| == 5 && GdpLe(rows[i].estimatedGdp, top[4].estimatedGdp))
  {
    assert rows[i] in multiset(sorted);
    var j :| 0 <= j < |sorted| && sorted[j] == rows[i];
    if j < |top| {
      assert top[j] == Project(rows[i]);
    } else {
      assert Before(sorted[4], sorted[j], true);
    }
  }
}
