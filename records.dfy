/** Values shared by the refresh pipeline, the storage model and the handlers:
    the nullable wrapper, JavaScript truthiness of optional strings, the
    lower-casing used for every name comparison, and the records that flow
    from the country source to the table. */
module Records {

  /** A JavaScript value that may be `null`/`undefined` (None) or present. */
  datatype Option<+T> = None | Some(value: T)

  /** Seconds of the `last_refreshed_at` column; its formatting is not modelled. */
  type Timestamp = int

  /** `if (s)` on an optional string: absent and "" are falsy. */
  predicate Truthy(s: Option<string>)
  {
    s.Some? && s.value != ""
  }

  /** `s || null`: a falsy string becomes null, any other is kept. */
  function OrNull(s: Option<string>): (r: Option<string>)
    ensures Truthy(s) ==> r == s
    ensures !Truthy(s) ==> r == None
    ensures r != Some("")
  {
    if Truthy(s) then s else None
  }

  /** ASCII case mapping of one character, as `toLowerCase()` and SQL `LOWER` do on ASCII. */
  function LowerChar(c: char): (d: char)
    ensures 'A' <= c <= 'Z' ==> 'a' <= d <= 'z' && d as int - 'a' as int == c as int - 'A' as int
    ensures !('A' <= c <= 'Z') ==> d == c
  {
    if 'A' <= c <= 'Z' then (c as int - 'A' as int + 'a' as int) as char else c
  }

  function Lower(s: string): (r: string)
    ensures |r| == |s|
    ensures forall i :: 0 <= i < |s| ==> r[i] == LowerChar(s[i])
  {
    seq(|s|, i requires 0 <= i < |s| => LowerChar(s[i]))
  }

  /** `LOWER(a) = LOWER(b)`: the only way names are compared anywhere in the core. */
  predicate NameMatches(a: string, b: string)
  {
    Lower(a) == Lower(b)
  }

  /** Lower-casing twice is lower-casing once, so matching is stable under it. */
  lemma LowerIdempotent(s: string)
    ensures Lower(Lower(s)) == Lower(s)
  {
    forall i | 0 <= i < |s|
      ensures Lower(Lower(s))[i] == Lower(s)[i]
    {
      assert 'a' as int > 'Z' as int;
    }
  }

  /** A case-varying spelling of a name matches it, e.g. "Japan" and "japan". */
  lemma JapanMatchesLowerJapan()
    ensures NameMatches("Japan", "japan")
    ensures !NameMatches("Japan", "Jamaica")
  {
    assert Lower("Japan")[0] == 'j';
    assert Lower("Japan") == "japan";
    assert Lower("Jamaica")[2] == 'm';
  }

  /** One entry of a country's `currencies` array; only its `code` is read. */
  datatype Currency = Currency(code: string)

  /** A country as the country source returns it. */
  datatype RawCountry = RawCountry(
    name: string,
    capital: Option<string>,
    region: Option<string>,
    population: nat,
    flag: Option<string>,
    currencies: Option<seq<Currency>>,
    independent: Option<bool>)

  /** A country after enrichment: the raw fields minus `independent` and
      `currencies`, plus the three derived fields. */
  datatype RefinedCountry = RefinedCountry(
    name: string,
    capital: Option<string>,
    region: Option<string>,
    population: nat,
    flag: Option<string>,
    estimatedGdp: Option<real>,
    exchangeRate: Option<real>,
    currencyCode: Option<string>)

  /** One row of the `countries` table. */
  datatype Row = Row(
    name: string,
    capital: Option<string>,
    region: Option<string>,
    population: nat,
    currencyCode: Option<string>,
    exchangeRate: Option<real>,
    estimatedGdp: Option<real>,
    flagUrl: Option<string>,
    lastRefreshedAt: Timestamp)

  /** What the environment supplies for one country in one refresh: the
      `Math.random()` draw behind the GDP factor, the one behind the smoothing
      multiplier, and whether that country's storage write fails. */
  datatype Draw = Draw(factor: real, smoothing: real, writeFails: bool)

  predicate ValidDraw(d: Draw)
  {
    0.0 <= d.factor < 1.0 && 0.0 <= d.smoothing < 1.0
  }
}
