/** server.js: the refresh handler (upstream guard, per-country enrichment,
    saves, summary) and the get, delete and status handlers as operations on
    the table. HTTP plumbing is reduced to the handlers' outcomes. */
module Server {
  import opened Records
  import opened Storage
  import opened Helpers

  // ---------------------------------------------------------------------
  // Enrichment of one country

  /** `!country.currencies || country.currencies.length < 1`. */
  predicate NoCurrency(country: RawCountry)
  {
    country.currencies.None? || |country.currencies.value| < 1
  }

  /** The `code` of the first entry of `currencies`. */
  function FirstCode(country: RawCountry): string
    requires !NoCurrency(country)
  {
    country.currencies.value[0].code
  }

  /** `exchangeRateData.rates[code]` is truthy: present and not 0. */
  predicate RateFound(rates: map<string, real>, code: string)
  {
    code in rates && rates[code] != 0.0
  }

  /** `country.population * getRandomIntRange(1000, 2000) / exchangeRate`. */
  function EstimatedGdp(population: nat, factor: int, rate: real): real
    requires rate != 0.0
  {
    population as real * factor as real / rate
  }

  /** For a whole-number factor in [1000, 2000] and a positive rate the GDP
      lies between its values at the two ends of the range. */
  lemma GdpBounds(population: nat, k: int, rate: real)
    requires 1000 <= k <= 2000 && rate != 0.0
    ensures rate > 0.0 ==>
      population as real * 1000.0 / rate <= EstimatedGdp(population, k, rate) <= population as real * 2000.0 / rate
  {
    if rate > 0.0 {
      var p := population as real;
      MulLe(1000.0, k as real, p);
      MulLe(k as real, 2000.0, p);
      MulLe(p * 1000.0, p * k as real, 1.0 / rate);
      MulLe(p * k as real, p * 2000.0, 1.0 / rate);
      assert EstimatedGdp(population, k, rate) == p * k as real * (1.0 / rate);
    }
  }

  /** The refined record the `forEach` body pushes for one country; `u` is the
      draw behind `getRandomIntRange(1000, 2000)`. */
  function Enrich(country: RawCountry, rates: map<string, real>, u: real): (r: RefinedCountry)
    requires 0.0 <= u < 1.0
    ensures r.name == country.name && r.capital == country.capital && r.region == country.region
    ensures r.population == country.population && r.flag == country.flag
    ensures NoCurrency(country) ==>
      r.currencyCode == None && r.exchangeRate == None && r.estimatedGdp == Some(0.0)
    ensures !NoCurrency(country) ==> r.currencyCode == Some(FirstCode(country))
    ensures !NoCurrency(country) && !RateFound(rates, FirstCode(country)) ==>
      r.exchangeRate == None && r.estimatedGdp == None
    ensures !NoCurrency(country) && RateFound(rates, FirstCode(country)) ==>
      r.exchangeRate == Some(rates[FirstCode(country)]) && r.estimatedGdp.Some?
    ensures !NoCurrency(country) && RateFound(rates, FirstCode(country)) && rates[FirstCode(country)] > 0.0 ==>
      var p, rate := country.population as real, rates[FirstCode(country)];
      p * 1000.0 / rate <= r.estimatedGdp.value <= p * 2000.0 / rate
    ensures r.estimatedGdp.None? <==> r.currencyCode.Some? && r.exchangeRate.None?
  {
    if NoCurrency(country) then
      RefinedCountry(country.name, country.capital, country.region, country.population, country.flag,
                     Some(0.0), None, None)
    else
      var code := FirstCode(country);
      if !RateFound(rates, code) then
        RefinedCountry(country.name, country.capital, country.region, country.population, country.flag,
                       None, None, Some(code))
      else
        var rate := rates[code];
        var factor := RandomIntRange(1000.0, 2000.0, u);
        GdpFactorBounds(u);
        GdpBounds(country.population, factor, rate);
        RefinedCountry(country.name, country.capital, country.region, country.population, country.flag,
                       Some(EstimatedGdp(country.population, factor, rate)), Some(rate), Some(code))
  }

  /** With a rate found, the GDP is `population * k / rate` for some whole k
      in [1000, 2000]; every such k is the outcome of some draw. */
  lemma EnrichGdpFactor(country: RawCountry, rates: map<string, real>, u: real)
    requires 0.0 <= u < 1.0
    requires !NoCurrency(country) && RateFound(rates, FirstCode(country))
    ensures exists k :: (1000 <= k <= 2000 &&
      Enrich(country, rates, u).estimatedGdp == Some(EstimatedGdp(country.population, k, rates[FirstCode(country)])))
  {
    GdpFactorBounds(u);
    var k := RandomIntRange(1000.0, 2000.0, u);
    assert Enrich(country, rates, u).estimatedGdp == Some(EstimatedGdp(country.population, k, rates[FirstCode(country)]));
  }

  /** Every draw of one refresh is valid: `ValidDraw` of each entry, with the
      body written out so that facts about `draws[i]` trigger it. */
  predicate ValidDraws(draws: seq<Draw>)
  {
    forall i :: 0 <= i < |draws| ==> 0.0 <= draws[i].factor < 1.0 && 0.0 <= draws[i].smoothing < 1.0
  }

  /** The `forEach` loop of the refresh handler: one refined record per
      country, in order. */
  method RefineCountries(countryData: seq<RawCountry>, rates: map<string, real>, draws: seq<Draw>)
    returns (refined: seq<RefinedCountry>)
    requires |draws| == |countryData| && ValidDraws(draws)
    ensures |refined| == |countryData|
    ensures forall i :: 0 <= i < |countryData| ==> refined[i] == Enrich(countryData[i], rates, draws[i].factor)
  {
    refined := [];
    var i := 0;
    while i < |countryData|
      invariant 0 <= i <= |countryData| && |refined| == i
      invariant forall k :: 0 <= k < i ==> refined[k] == Enrich(countryData[k], rates, draws[k].factor)
    {
      var country := countryData[i];
      var exchangeRate: Option<real>;
      var currencyCode: Option<string>;
      var estimatedGdp: Option<real>;

      if country.currencies.None? || |country.currencies.value| < 1 {
        currencyCode, exchangeRate := None, None;
        estimatedGdp := Some(0.0);
      } else {
        var code := country.currencies.value[0].code;
        currencyCode := Some(code);
        exchangeRate := if code in rates then Some(rates[code]) else None;
        if exchangeRate.None? || exchangeRate.value == 0.0 {
          exchangeRate, estimatedGdp := None, None;
        } else {
          var factor := RandomIntRange(1000.0, 2000.0, draws[i].factor);
          estimatedGdp := Some(EstimatedGdp(country.population, factor, exchangeRate.value));
        }
      }
      refined := refined + [RefinedCountry(country.name, country.capital, country.region,
                                           country.population, country.flag,
                                           estimatedGdp, exchangeRate, currencyCode)];
      i := i + 1;
    }
  }

  // ---------------------------------------------------------------------
  // The refresh handler

  /** An upstream response: `ok` with its parsed body, or not ok. */
  datatype Upstream<T> = Ok(body: T) | NotOk

  datatype Source = CountrySource | ExchangeRateSource

  datatype RefreshOutcome =
    | Unavailable(source: Source)
    | Refreshed(totalCountries: nat, lastRefreshedAt: Option<Timestamp>)

  /** The HTTP status each outcome is answered with. */
  function RefreshStatus(o: RefreshOutcome): (code: int)
    ensures o.Unavailable? <==> code == 503
    ensures o.Refreshed? <==> code == 200
  {
    if o.Unavailable? then 503 else 200
  }


  /** `refinedCountryData` as a value. */
  function EnrichAll(countryData: seq<RawCountry>, rates: map<string, real>, draws: seq<Draw>): (r: seq<RefinedCountry>)
    requires |draws| == |countryData| && ValidDraws(draws)
    ensures |r| == |countryData|
    ensures forall i :: 0 <= i < |r| ==> r[i].name == countryData[i].name && r[i].population == countryData[i].population
    ensures forall i :: 0 <= i < |r| ==> (r[i].currencyCode.None? <==> NoCurrency(countryData[i]))
  {
    seq(|countryData|, i requires 0 <= i < |countryData| => Enrich(countryData[i], rates, draws[i].factor))
  }

  /** The table after the saves of `refined`, one after the other. */
  function SaveAll(rows: seq<Row>, refined: seq<RefinedCountry>, draws: seq<Draw>, now: Timestamp): (r: seq<Row>)
    requires |draws| == |refined| && ValidDraws(draws)
    ensures (forall i :: 0 <= i < |draws| ==> draws[i].writeFails) ==> r == rows
    decreases |refined|
  {
    if refined == [] then rows
    else
      var n := |refined| - 1;
      SaveSpec(SaveAll(rows, refined[..n], draws[..n], now), refined[n], draws[n], now)
  }

  /** The second `forEach` of the refresh handler: one save per refined
      country, in order. */
  method SaveCountries(db: CountryTable, refined: seq<RefinedCountry>, draws: seq<Draw>, now: Timestamp)
    requires |draws| == |refined| && ValidDraws(draws)
    modifies db
    ensures db.rows == SaveAll(old(db.rows), refined, draws, now)
  {
    var i := 0;
    while i < |refined|
      invariant 0 <= i <= |refined|
      invariant db.rows == SaveAll(old(db.rows), refined[..i], draws[..i], now)
    {
      assert refined[..i + 1][..i] == refined[..i] && draws[..i + 1][..i] == draws[..i];
      SaveCountryToDB(db, refined[i], draws[i], now);
      i := i + 1;
    }
    assert refined[..|refined|] == refined && draws[..|draws|] == draws;
  }

  /** `POST /countries/refresh`. Both sources are fetched before either is
      checked; the country source is checked first. */
  method Refresh(db: CountryTable, countryResponse: Upstream<seq<RawCountry>>,
                 exchangeRateResponse: Upstream<map<string, real>>, draws: seq<Draw>, now: Timestamp)
    returns (outcome: RefreshOutcome)
    requires countryResponse.Ok? ==> |draws| == |countryResponse.body|
    requires ValidDraws(draws)
    modifies db
    ensures countryResponse.NotOk? ==> outcome == Unavailable(CountrySource) && db.rows == old(db.rows)
    ensures countryResponse.Ok? && exchangeRateResponse.NotOk? ==>
      outcome == Unavailable(ExchangeRateSource) && db.rows == old(db.rows)
    ensures countryResponse.Ok? && exchangeRateResponse.Ok? ==>
      db.rows == SaveAll(old(db.rows), EnrichAll(countryResponse.body, exchangeRateResponse.body, draws), draws, now) &&
      outcome == Refreshed(SummaryData(db.rows).totalCountries, SummaryData(db.rows).lastRefreshedAt)
  {
    if countryResponse.NotOk? {
      return Unavailable(CountrySource);
    }
    if exchangeRateResponse.NotOk? {
      return Unavailable(ExchangeRateSource);
    }
    var countryData := countryResponse.body;
    var rates := exchangeRateResponse.body;
    var refined := RefineCountries(countryData, rates, draws);
    assert refined == EnrichAll(countryData, rates, draws);

    SaveCountries(db, refined, draws, now);
    var summary := SummaryData(db.rows);
    outcome := Refreshed(summary.totalCountries, summary.lastRefreshedAt);
  }

  /** A refresh never shrinks the table and adds at most one row per country. */
  lemma {:induction false} SaveAllBounds(rows: seq<Row>, refined: seq<RefinedCountry>, draws: seq<Draw>, now: Timestamp)
    requires |draws| == |refined| && ValidDraws(draws)
    ensures |rows| <= |SaveAll(rows, refined, draws, now)| <= |rows| + |refined|
    decreases |refined|
  {
    if refined != [] {
      var n := |refined| - 1;
      SaveAllBounds(rows, refined[..n], draws[..n], now);
    }
  }

  /** A refresh keeps every name that was in the table. */
  lemma {:induction false} SaveAllKeepsNames(rows: seq<Row>, refined: seq<RefinedCountry>, draws: seq<Draw>,
                                             now: Timestamp, name: string)
    requires |draws| == |refined| && ValidDraws(draws)
    requires HasMatch(rows, name)
    ensures HasMatch(SaveAll(rows, refined, draws, now), name)
    decreases |refined|
  {
    if refined != [] {
      var n := |refined| - 1;
      SaveAllKeepsNames(rows, refined[..n], draws[..n], now, name);
      SaveKeepsPresent(SaveAll(rows, refined[..n], draws[..n], now), refined[n], draws[n], now, name);
    }
  }

  /** After a refresh every country whose write did not fail has a row. */
  lemma {:induction false} SaveAllStoresEachCountry(rows: seq<Row>, refined: seq<RefinedCountry>, draws: seq<Draw>,
                                                    now: Timestamp, i: int)
    requires |draws| == |refined| && ValidDraws(draws)
    requires 0 <= i < |refined| && !draws[i].writeFails
    ensures HasMatch(SaveAll(rows, refined, draws, now), refined[i].name)
    decreases |refined|
  {
    var n := |refined| - 1;
    var before := SaveAll(rows, refined[..n], draws[..n], now);
    if i == n {
      SaveMakesPresent(before, refined[n], draws[n], now);
    } else {
      SaveAllStoresEachCountry(rows, refined[..n], draws[..n], now, i);
      SaveKeepsPresent(before, refined[n], draws[n], now, refined[i].name);
    }
  }

  /** A refresh keeps names unique under case-insensitive comparison. */
  lemma {:induction false} SaveAllKeepsUniqueNames(rows: seq<Row>, refined: seq<RefinedCountry>, draws: seq<Draw>,
                                                   now: Timestamp)
    requires |draws| == |refined| && ValidDraws(draws)
    requires UniqueNames(rows)
    ensures UniqueNames(SaveAll(rows, refined, draws, now))
    decreases |refined|
  {
    if refined != [] {
      var n := |refined| - 1;
      SaveAllKeepsUniqueNames(rows, refined[..n], draws[..n], now);
      SavePreservesUniqueNames(SaveAll(rows, refined[..n], draws[..n], now), refined[n], draws[n], now);
    }
  }

  /** A country with currency "TST" and no "TST" rate, refreshed into an empty
      table, is stored with a null GDP and the refresh reports one country. */
  lemma TestlandScenario(d: Draw, now: Timestamp)
    requires ValidDraw(d) && !d.writeFails
    ensures var testland := RawCountry("Testland", None, None, 1000000, None, Some([Currency("TST")]), None);
      var rows := SaveAll([], EnrichAll([testland], map[], [d]), [d], now);
      |rows| == 1 && rows[0].estimatedGdp == None && rows[0].currencyCode == Some("TST") &&
      SummaryData(rows).totalCountries == 1 && SummaryData(rows).lastRefreshedAt == Some(now)
  {
    var testland := RawCountry("Testland", None, None, 1000000, None, Some([Currency("TST")]), None);
    var refined := EnrichAll([testland], map[], [d]);
    assert refined == [Enrich(testland, map[], d.factor)];
    assert FirstCode(testland) == "TST";
    assert [d][..0] == [] && refined[..0] == [];
    assert SaveAll([], refined[..0], [d][..0], now) == [];
    var rows := SaveAll([], refined, [d], now);
    assert rows == SaveSpec([], refined[0], d, now);
  }

  // ---------------------------------------------------------------------
  // GET /countries/:name, DELETE /countries/:name, GET /status

  datatype Lookup = Found(row: Row) | NotFound

  /** `SELECT * ... WHERE LOWER(name) = LOWER(?) LIMIT 1`: the first matching
      row in storage order, or 404. */
  function GetCountry(rows: seq<Row>, name: string): (r: Lookup)
    ensures r.NotFound? <==> !HasMatch(rows, name)
    ensures r.Found? ==> exists i :: (0 <= i < |rows| && rows[i] == r.row && NameMatches(r.row.name, name) &&
      forall j :: 0 <= j < i ==> !NameMatches(rows[j].name, name))
  {
    if rows == [] then NotFound
    else if NameMatches(rows[0].name, name) then Found(rows[0])
    else
      var r := GetCountry(rows[1..], name);
      assert forall i :: 0 < i < |rows| ==> rows[i] == rows[1..][i - 1];
      if r.Found? then
        var i :| 0 <= i < |rows[1..]| && rows[1..][i] == r.row && NameMatches(r.row.name, name) &&
          forall j :: 0 <= j < i ==> !NameMatches(rows[1..][j].name, name);
        assert rows[i + 1] == r.row;
        r
      else r
  }

  /** 404 for a missing name, 200 otherwise. */
  function GetStatus(r: Lookup): (code: int)
    ensures r.NotFound? <==> code == 404
  {
    if r.NotFound? then 404 else 200
  }

  datatype DeleteOutcome = Deleted | DeleteNotFound

  /** `DELETE /countries/:name`: removes every row whose lowercased name equals
      the lowercased argument; 404 when `affectedRows` is 0. */
  method DeleteCountry(db: CountryTable, name: string) returns (outcome: DeleteOutcome, affected: nat)
    modifies db
    ensures db.rows == WithoutName(old(db.rows), name)
    ensures affected == |old(db.rows)| - |db.rows|
    ensures outcome == DeleteNotFound <==> affected == 0
    ensures outcome == DeleteNotFound <==> !HasMatch(old(db.rows), name)
    ensures outcome == DeleteNotFound ==> db.rows == old(db.rows)
  {
    affected := db.DeleteByName(name);
    if affected == 0 {
      return DeleteNotFound, affected;
    }
    outcome := Deleted;
  }

  /** With unique names, a delete that finds the name removes exactly one row,
      and the table stays unique. */
  lemma DeleteRemovesOneRow(rows: seq<Row>, name: string)
    requires UniqueNames(rows) && HasMatch(rows, name)
    ensures |WithoutName(rows, name)| == |rows| - 1
    ensures !HasMatch(WithoutName(rows, name), name)
  {
    UniqueMatchAtMostOne(rows, name);
  }

  /** Deleting keeps names unique. */
  lemma {:induction false} DeleteKeepsUniqueNames(rows: seq<Row>, name: string)
    requires UniqueNames(rows)
    ensures UniqueNames(WithoutName(rows, name))
  {
    if rows != [] {
      UniqueNamesTail(rows);
      DeleteKeepsUniqueNames(rows[1..], name);
      if !NameMatches(rows[0].name, name) {
        var rest := WithoutName(rows[1..], name);
        forall k | 0 <= k < |rest|
          ensures !NameMatches(rows[0].name, rest[k].name)
        {
          var m :| 0 <= m < |rows[1..]| && rows[1..][m] == rest[k];
          assert rows[m + 1] == rest[k];
        }
        UniqueNamesCons(rows[0], rest);
      }
    }
  }

  /** A row that matches none of a unique table can be put in front of it. */
  lemma UniqueNamesCons(x: Row, rest: seq<Row>)
    requires UniqueNames(rest)
    requires forall k :: 0 <= k < |rest| ==> !NameMatches(x.name, rest[k].name)
    ensures UniqueNames([x] + rest)
  {
    var r := [x] + rest;
    forall i, j | 0 <= i < j < |r|
      ensures !NameMatches(r[i].name, r[j].name)
    {
      if i > 0 {
        assert r[i] == rest[i - 1] && r[j] == rest[j - 1];
      }
    }
  }

  datatype StatusReport = StatusReport(totalCountries: nat, lastRefreshedAt: Option<Timestamp>)

  /** `GET /status`: `COUNT(*)` and `MAX(last_refreshed_at)`, null on an empty table. */
  function Status(rows: seq<Row>): (s: StatusReport)
    ensures s.totalCountries == |rows|
    ensures s.lastRefreshedAt.None? <==> rows == []
    ensures s.lastRefreshedAt.Some? ==>
      (forall i :: 0 <= i < |rows| ==> rows[i].lastRefreshedAt <= s.lastRefreshedAt.value) &&
      (exists i :: 0 <= i < |rows| && rows[i].lastRefreshedAt == s.lastRefreshedAt.value)
  {
    StatusReport(|rows|, MaxStamp(rows))
  }

  /** The figures a refresh reports are the ones `GET /status` then shows. */
  lemma RefreshAgreesWithStatus(rows: seq<Row>)
    ensures Status(rows).totalCountries == SummaryData(rows).totalCountries
    ensures Status(rows).lastRefreshedAt == SummaryData(rows).lastRefreshedAt
  {
  }
}
