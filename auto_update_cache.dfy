/**
 * auto_update_cache.py: grows the geocode cache. Every station address yields
 * a (PLZ, city, country) location; locations whose key `plz|city|country` is
 * not yet cached are geocoded, and the result (a coordinate pair or the
 * `[None, None]` failure marker) is stored under that key.
 */
module AutoUpdateCache {
  import opened Common
  import opened Text
  import opened Regex
  import opened Records

  // ---------------------------------------------------------------------------
  // extract_plz_city_country

  /** `(?:\s*,|\s*$)` at `e`: the first alternative is tried on every length of `\s*`, then the second. */
  function TailAt(s: string, e: nat): Option<nat>
    requires e <= |s|
  {
    var comma := FirstOk(Star(s, e, IsSpace), (t: nat) => if t < |s| && s[t] == ',' then Some(t + 1) else None);
    if comma.Some? then comma
    else FirstOk(Star(s, e, IsSpace), (t: nat) => if AtEnd(s, t) then Some(t) else None)
  }

  /** The whitespace after `e` runs into a comma or to the end. */
  predicate TailMatches(s: string, e: nat)
    requires e <= |s|
  {
    e + Run(s, e, IsSpace) == |s| || s[e + Run(s, e, IsSpace)] == ','
  }

  /** The tail matches exactly when the whitespace after `e` runs into a comma or to the end. */
  lemma TailAtIff(s: string, e: nat)
    requires e <= |s|
    ensures TailAt(s, e).Some? <==> TailMatches(s, e)
  {
    var t0 := e + Run(s, e, IsSpace);
    var ends := Star(s, e, IsSpace);
    var f := (t: nat) => if t < |s| && s[t] == ',' then Some(t + 1) else None;
    var g := (t: nat) => if AtEnd(s, t) then Some(t) else None;
    if t0 < |s| && s[t0] == ',' {
      FirstOkHead(ends, f);
    } else if t0 == |s| {
      FirstOkHead(ends, g);
      if FirstOk(ends, f).None? {
        assert g(ends[0]).Some?;
      }
    } else {
      assert !IsSpace(s[t0]);
      forall k | 0 <= k < |ends| ensures f(ends[k]).None? && g(ends[k]).None? {
        var t := ends[k];
        assert e <= t <= t0;
        if t < t0 {
          assert IsSpace(s[t]);
        }
      }
    }
  }

  /** The city group ending at `e`, if the tail matches there (`TailAtIff`: as the pattern `TailAt` does). */
  function CityEnd(s: string, j: nat, e: nat): (r: Option<string>)
    ensures r.Some? ==> j <= e <= |s| && r.value == s[j..e]
  {
    if j <= e <= |s| && TailMatches(s, e) then Some(s[j..e]) else None
  }

  /** `CityEnd` as a matcher over the ends of the city group. */
  function CityEndAfter(s: string, j: nat): nat -> Option<string>
  {
    (e: nat) => CityEnd(s, j, e)
  }

  /** `([city]+?)(?:\s*,|\s*$)` from `j`: the shortest city group after which the tail matches. */
  function CityFrom(s: string, j: nat): (r: Option<string>)
    ensures r.Some? ==> r.value != "" && AllChars(r.value, IsCityChar)
  {
    if j <= |s| then
      var ends := Lazy(s, j, IsCityChar, 1);
      var r := FirstOk(ends, CityEndAfter(s, j));
      assert r.Some? ==> r.value != "" && AllChars(r.value, IsCityChar) by {
        if r.Some? {
          var k := FirstOkAt(ends, CityEndAfter(s, j));
          assert r.value == s[j..ends[k]] && j < ends[k];
          assert AllIn(s, j, ends[k], IsCityChar);
          forall t | 0 <= t < |r.value| ensures IsCityChar(r.value[t]) {
            assert r.value[t] == s[j + t];
          }
        }
      }
      r
    else None
  }

  /**
   * The city group from `j` is `s[j..e]` for the least `e` past `j` where the
   * tail matches.
   */
  lemma CityFromShortest(s: string, j: nat) returns (e: nat)
    requires j <= |s| && CityFrom(s, j).Some?
    ensures j < e <= |s| && CityFrom(s, j) == Some(s[j..e])
    ensures TailMatches(s, e)
    ensures forall e' | j < e' < e :: !TailMatches(s, e')
  {
    assert CityFrom(s, j) == FirstOk(Lazy(s, j, IsCityChar, 1), CityEndAfter(s, j));
    e := CityFromEnd(s, j);
  }

  /** There is no city group from `j` exactly when the tail matches at no end within the run of city characters. */
  lemma CityFromNoneIff(s: string, j: nat)
    requires j <= |s|
    ensures CityFrom(s, j).None? <==> forall e | j < e <= j + Run(s, j, IsCityChar) :: !TailMatches(s, e)
  {
    assert CityFrom(s, j) == FirstOk(Lazy(s, j, IsCityChar, 1), CityEndAfter(s, j));
    CityFromNone(s, j);
  }

  /** The city matcher succeeds at an end inside `s` exactly when the tail matches there, with the slice up to it. */
  lemma CityEndAfterAt(s: string, j: nat, e: nat)
    requires j <= e <= |s|
    ensures CityEndAfter(s, j)(e).None? <==> !TailMatches(s, e)
    ensures CityEndAfter(s, j)(e).Some? ==> CityEndAfter(s, j)(e).value == s[j..e]
  {
  }

  /** The lazy search of `CityFrom` fails exactly when the tail matches at no end of the city run. */
  lemma CityFromNone(s: string, j: nat)
    requires j <= |s|
    ensures FirstOk(Lazy(s, j, IsCityChar, 1), CityEndAfter(s, j)).None? <==>
      forall e | j < e <= j + Run(s, j, IsCityChar) :: !TailMatches(s, e)
  {
    var m := CityEndAfter(s, j);
    LazyNone(s, j, IsCityChar, 1, m);
    forall e | j < e <= j + Run(s, j, IsCityChar) ensures m(e).None? <==> !TailMatches(s, e) {
      CityEndAfterAt(s, j, e);
    }
  }

  /** The end of the city group the lazy search finds: the least one where the tail matches. */
  lemma CityFromEnd(s: string, j: nat) returns (e: nat)
    requires j <= |s| && FirstOk(Lazy(s, j, IsCityChar, 1), CityEndAfter(s, j)).Some?
    ensures j < e <= j + Run(s, j, IsCityChar) && TailMatches(s, e)
    ensures FirstOk(Lazy(s, j, IsCityChar, 1), CityEndAfter(s, j)) == Some(s[j..e])
    ensures forall e' | j < e' < e :: !TailMatches(s, e')
  {
    var m := CityEndAfter(s, j);
    e := LazyFirstAt(s, j, IsCityChar, 1, m);
    CityEndAfterAt(s, j, e);
    forall e' | j < e' < e ensures !TailMatches(s, e') {
      CityEndAfterAt(s, j, e');
    }
  }

  /** `CityFrom` as a matcher over positions of `s`. */
  function CityAfter(s: string): nat -> Option<string>
  {
    (j: nat) => CityFrom(s, j)
  }

  /**
   * `\b(\d{n})\s+([city]+?)(?:\s*,|\s*$)` tried at `i`: the code and the city
   * group. `\s+` is greedy and `[city]+?` lazy, so the first success in the
   * engine's order is the longest run of spaces and then the shortest city.
   */
  function LocationAt(s: string, i: nat, n: nat): (r: Option<(string, string)>)
    ensures r.Some? ==> |r.value.0| == n && AllDigits(r.value.0)
    ensures r.Some? ==> r.value.1 != "" && AllChars(r.value.1, IsCityChar)
    ensures r.Some? ==> i + n <= |s| && r.value.0 == s[i..i + n] && Boundary(s, i)
  {
    if i <= |s| && Boundary(s, i) && DigitsAt(s, i, n) then
      var spaces := Plus(s, i + n, IsSpace);
      var city := FirstOk(spaces, CityAfter(s));
      if city.Some? then
        assert city.value != "" && AllChars(city.value, IsCityChar) by {
          var k := FirstOkAt(spaces, CityAfter(s));
          assert city == CityFrom(s, spaces[k]);
        }
        DigitsAtSlice(s, i, n);
        Some((s[i..i + n], city.value))
      else None
    else None
  }

  /** The city group comes from the last end `j` of the spaces after `d` where `CityFrom` succeeds. */
  predicate CityAtSpaces(s: string, d: nat, city: string)
    requires d <= |s|
  {
    exists j | d < j <= d + Run(s, d, IsSpace) ::
      CityFrom(s, j) == Some(city) && forall j' | j < j' <= d + Run(s, d, IsSpace) :: CityFrom(s, j').None?
  }

  /** `CityFrom` succeeds at no end of the spaces after `d`. */
  predicate NoCityAtSpaces(s: string, d: nat)
  {
    d <= |s| ==> forall j | d < j <= d + Run(s, d, IsSpace) :: CityFrom(s, j).None?
  }

  /** The greedy search over the spaces after `d` fails exactly when no end of them is followed by a city. */
  lemma CitySpacesNone(s: string, d: nat)
    requires d <= |s|
    ensures FirstOk(Plus(s, d, IsSpace), CityAfter(s)).None? <==> NoCityAtSpaces(s, d)
  {
    var m := CityAfter(s);
    PlusNone(s, d, IsSpace, m);
    assert forall j | d < j <= d + Run(s, d, IsSpace) :: m(j) == CityFrom(s, j);
  }

  /** A city after any end of the spaces after `d` makes the greedy search over them succeed. */
  lemma CitySpacesSomeAt(s: string, d: nat, j: nat)
    requires d <= |s| && d < j <= d + Run(s, d, IsSpace) && CityFrom(s, j).Some?
    ensures FirstOk(Plus(s, d, IsSpace), CityAfter(s)).Some?
  {
    CitySpacesNone(s, d);
  }

  /** A city found by the greedy search over the spaces after `d` follows the last end where one does. */
  lemma CitySpacesLast(s: string, d: nat)
    requires d <= |s| && FirstOk(Plus(s, d, IsSpace), CityAfter(s)).Some?
    ensures CityAtSpaces(s, d, FirstOk(Plus(s, d, IsSpace), CityAfter(s)).value)
  {
    var m := CityAfter(s);
    var top := Run(s, d, IsSpace);
    var j := PlusLastAt(s, d, IsSpace, m);
    assert m(j) == CityFrom(s, j);
    assert forall j' | j < j' <= d + top :: m(j') == CityFrom(s, j');
  }

  /** Where the code stands at `i`, the pattern succeeds exactly when the greedy search over the spaces finds a city, and gives that city. */
  lemma LocationAtSpaces(s: string, i: nat, n: nat)
    requires i <= |s| && Boundary(s, i) && DigitsAt(s, i, n)
    ensures LocationAt(s, i, n).None? <==> FirstOk(Plus(s, i + n, IsSpace), CityAfter(s)).None?
    ensures LocationAt(s, i, n).Some? ==> LocationAt(s, i, n).value.1 == FirstOk(Plus(s, i + n, IsSpace), CityAfter(s)).value
  {
  }

  /** A city found at `i` is the one the greedy search over the spaces after the code finds. */
  lemma LocationAtFound(s: string, i: nat, n: nat)
    requires LocationAt(s, i, n).Some?
    ensures i + n <= |s| && FirstOk(Plus(s, i + n, IsSpace), CityAfter(s)) == Some(LocationAt(s, i, n).value.1)
  {
  }

  /** A city found at `i` comes from the last end of the spaces after the code where `CityFrom` succeeds. */
  lemma LocationAtCity(s: string, i: nat, n: nat)
    requires LocationAt(s, i, n).Some?
    ensures i + n <= |s| && CityAtSpaces(s, i + n, LocationAt(s, i, n).value.1)
  {
    LocationAtFound(s, i, n);
    CitySpacesLast(s, i + n);
  }

  /** Where the code stands at `i` and `CityFrom` succeeds at no end of the spaces after it, the pattern fails. */
  lemma LocationAtNoCity(s: string, i: nat, n: nat)
    requires i <= |s| && Boundary(s, i) && DigitsAt(s, i, n) && NoCityAtSpaces(s, i + n)
    ensures LocationAt(s, i, n).None?
  {
    CitySpacesNone(s, i + n);
    LocationAtSpaces(s, i, n);
  }

  /** Where the code stands at `i`, a city after any end of the spaces after it makes the pattern match. */
  lemma LocationAtCityAt(s: string, i: nat, n: nat, j: nat)
    requires i <= |s| && Boundary(s, i) && DigitsAt(s, i, n)
    requires i + n < j <= i + n + Run(s, i + n, IsSpace) && CityFrom(s, j).Some?
    ensures LocationAt(s, i, n).Some?
  {
    CitySpacesSomeAt(s, i + n, j);
    LocationAtSpaces(s, i, n);
  }

  /** Where the pattern fails at `i` although the code stands there, `CityFrom` succeeds at no end of the spaces after it. */
  lemma LocationAtNoneNoCity(s: string, i: nat, n: nat)
    requires i <= |s| && Boundary(s, i) && DigitsAt(s, i, n) && LocationAt(s, i, n).None?
    ensures NoCityAtSpaces(s, i + n)
  {
    if !NoCityAtSpaces(s, i + n) {
      var j :| i + n < j <= i + n + Run(s, i + n, IsSpace) && CityFrom(s, j).Some?;
      LocationAtCityAt(s, i, n, j);
    }
  }

  /** The pattern fails at `i` exactly when the code does not stand there or `CityFrom` succeeds at no end of the spaces after it. */
  lemma LocationAtNone(s: string, i: nat, n: nat)
    ensures LocationAt(s, i, n).None? <==> !(i <= |s| && Boundary(s, i) && DigitsAt(s, i, n)) || NoCityAtSpaces(s, i + n)
  {
    if i <= |s| && Boundary(s, i) && DigitsAt(s, i, n) {
      if NoCityAtSpaces(s, i + n) {
        LocationAtNoCity(s, i, n);
      }
      if LocationAt(s, i, n).None? {
        LocationAtNoneNoCity(s, i, n);
      }
    }
  }

  /** `LocationAt` as a matcher over positions of `s`. */
  function LocationMatcher(s: string, n: nat): nat -> Option<(string, string)>
  {
    (i: nat) => LocationAt(s, i, n)
  }

  /** `re.search(pattern, address)` for the `n`-digit pattern. */
  function SearchLocation(s: string, n: nat): (r: Option<(string, string)>)
    ensures r.Some? ==> |r.value.0| == n && AllDigits(r.value.0)
    ensures r.Some? ==> r.value.1 != "" && AllChars(r.value.1, IsCityChar)
  {
    match Search(|s|, 0, LocationMatcher(s, n))
    case None => None
    case Some((_, found)) => Some(found)
  }

  /** The search gives the match at the leftmost position where `LocationAt` succeeds, and none exactly when it succeeds nowhere. */
  lemma SearchLocationLeftmost(s: string, n: nat)
    ensures var r := SearchLocation(s, n);
      && (r.Some? ==> exists i | 0 <= i <= |s| :: LocationAt(s, i, n) == r && forall i' | 0 <= i' < i :: LocationAt(s, i', n).None?)
      && (r.None? <==> forall i | 0 <= i <= |s| :: LocationAt(s, i, n).None?)
  {
    var m := LocationMatcher(s, n);
    var found := Search(|s|, 0, m);
    assert forall i | 0 <= i <= |s| :: m(i) == LocationAt(s, i, n);
    if found.Some? {
      var i := found.value.0;
      assert LocationAt(s, i, n) == SearchLocation(s, n);
    }
  }

  /** `city.strip()` of a city group: still city characters, and nothing left to strip. */
  lemma StrippedCity(city: string)
    requires AllChars(city, IsCityChar)
    ensures Strip(city) == Strip(Strip(city)) && AllChars(Strip(city), IsCityChar)
  {
    StripByIdempotent(city, IsSpace);
  }

  /** A location as the script passes it around: `(plz, city, country)`. */
  datatype Location = Location(plz: string, city: string, country: string)

  /** The station's address is something `re.search` can read, or falsy. */
  predicate AddressReadable(station: Record)
  {
    "address" in station ==> (station["address"].Str? || !Truthy(station["address"]))
  }

  /** `station.get('plz_prefix', '') == name`. */
  predicate PrefixIs(station: Record, name: string)
  {
    "plz_prefix" in station && station["plz_prefix"] == Str(name)
  }

  /** The country for a 5-digit code: the prefix names the country, Germany by default. */
  function CountryFive(station: Record): string
  {
    if PrefixIs(station, "\U{F6}sterreich") then "\U{F6}sterreich"
    else if PrefixIs(station, "schweiz") then "schweiz"
    else if PrefixIs(station, "italien") then "italien"
    else "deutschland"
  }

  /** The country for a 4-digit code: only Austria and Switzerland are recognised. */
  function CountryFour(station: Record): string
  {
    if PrefixIs(station, "\U{F6}sterreich") then "\U{F6}sterreich"
    else if PrefixIs(station, "schweiz") then "schweiz"
    else "deutschland"
  }

  /** The four countries the script names. */
  predicate KnownCountry(country: string)
  {
    country in {"deutschland", "\U{F6}sterreich", "schweiz", "italien"}
  }

  /** What every extracted location looks like. */
  predicate WellFormed(loc: Location)
  {
    && (|loc.plz| == 5 || |loc.plz| == 4)
    && AllDigits(loc.plz)
    && loc.city == Strip(loc.city)
    && AllChars(loc.city, IsCityChar)
    && KnownCountry(loc.country)
    && (|loc.plz| == 4 ==> loc.country != "italien")
  }

  /**
   * `extract_plz_city_country`: the 5-digit pattern first, then the 4-digit
   * one; a 4-digit code never yields Italy.
   */
  function ExtractLocation(station: Record): (r: Option<Location>)
    requires AddressReadable(station)
    ensures !HasTruthy(station, "address") ==> r.None?
    ensures r.Some? ==> WellFormed(r.value)
    ensures r.Some? && |r.value.plz| == 5 ==> r.value.country == CountryFive(station)
    ensures r.Some? && |r.value.plz| == 4 ==> r.value.country == CountryFour(station)
    ensures HasTruthy(station, "address") ==>
      var address := station["address"].s;
      && (SearchLocation(address, 5).Some? ==> r.Some? && |r.value.plz| == 5)
      && (SearchLocation(address, 5).None? ==> (r.Some? <==> SearchLocation(address, 4).Some?))
    ensures HasTruthy(station, "address") && SearchLocation(station["address"].s, 5).Some? ==>
      var found := SearchLocation(station["address"].s, 5).value;
      r.Some? && r.value.plz == found.0 && r.value.city == Strip(found.1)
    ensures HasTruthy(station, "address") && SearchLocation(station["address"].s, 5).None? && SearchLocation(station["address"].s, 4).Some? ==>
      var found := SearchLocation(station["address"].s, 4).value;
      r.Some? && r.value.plz == found.0 && r.value.city == Strip(found.1)
  {
    if !HasTruthy(station, "address") then None
    else
      var address := station["address"].s;
      match SearchLocation(address, 5)
      case Some((plz, city)) =>
        StrippedCity(city);
        Some(Location(plz, Strip(city), CountryFive(station)))
      case None =>
        match SearchLocation(address, 4)
        case Some((plz, city)) =>
          StrippedCity(city);
          Some(Location(plz, Strip(city), CountryFour(station)))
        case None => None
  }

  // ---------------------------------------------------------------------------
  // create_cache_key, get_country_code

  /** A character that `lower()` leaves as it is. */
  predicate LowerFixed(c: char)
  {
    Lower(c) == c
  }

  predicate NotBar(c: char)
  {
    c != '|'
  }

  /** The city as it appears in a key: lower case, trimmed, inner whitespace collapsed to one space. */
  function NormalizeCity(city: string): (r: string)
    ensures r == Strip(r)
    ensures AllChars(r, LowerFixed)
  {
    var lowered := LowerStr(city);
    var stripped := Strip(lowered);
    var r := CollapseSpaces(stripped);
    assert r == Strip(r) && AllChars(r, LowerFixed) by {
      LowerStrIdempotent(city);
      assert AllChars(lowered, LowerFixed);
      StripByKeeps(lowered, IsSpace, LowerFixed);
      CollapseSpacesKeeps(stripped, LowerFixed);
      CollapseStripped(lowered);
    }
    r
  }

  /** Normalising a normalised city changes nothing, so a key can be rebuilt from its own city part. */
  lemma NormalizeCityIdempotent(city: string)
    ensures NormalizeCity(NormalizeCity(city)) == NormalizeCity(city)
  {
    var n := NormalizeCity(city);
    assert LowerStr(n) == n;
    CollapseSpacesIdempotent(Strip(LowerStr(city)));
  }

  /** `create_cache_key(plz, city, country)`. */
  function CacheKey(loc: Location): string
  {
    loc.plz + "|" + NormalizeCity(loc.city) + "|" + loc.country
  }

  /** Lower-casing, stripping and collapsing never produce a `|`. */
  lemma NoBarAfterNormalize(city: string)
    requires AllChars(city, NotBar)
    ensures AllChars(NormalizeCity(city), NotBar)
  {
    var lowered := LowerStr(city);
    assert AllChars(lowered, NotBar) by {
      forall k | 0 <= k < |city| ensures NotBar(lowered[k]) {
        assert NotBar(city[k]);
      }
    }
    var stripped := Strip(lowered);
    StripByKeeps(lowered, IsSpace, NotBar);
    CollapseSpacesKeeps(stripped, NotBar);
  }

  /** A key splits back into its three parts when none of them holds a `|`. */
  lemma CacheKeyParts(loc: Location)
    requires AllChars(loc.plz, NotBar) && AllChars(loc.city, NotBar) && AllChars(loc.country, NotBar)
    ensures Split(CacheKey(loc), '|') == [loc.plz, NormalizeCity(loc.city), loc.country]
  {
    var city := NormalizeCity(loc.city);
    NoBarAfterNormalize(loc.city);
    NoBarNotIn(loc.plz);
    NoBarNotIn(city);
    NoBarNotIn(loc.country);
    SplitWithoutSeparator(loc.country, '|');
    SplitAtFirst(city, loc.country, '|');
    SplitAtFirst(loc.plz, city + ['|'] + loc.country, '|');
    KeyShape(loc.plz, city, loc.country);
  }

  lemma NoBarNotIn(s: string)
    requires AllChars(s, NotBar)
    ensures '|' !in s
  {
  }

  /** The key's text, grouped from the right. */
  lemma KeyShape(plz: string, city: string, country: string)
    ensures plz + "|" + city + "|" + country == plz + ['|'] + (city + ['|'] + country)
  {
  }

  /** Two extracted locations share a key exactly when code, normalised city and country agree. */
  lemma CacheKeyInjective(a: Location, b: Location)
    requires AllChars(a.plz, NotBar) && AllChars(a.city, NotBar) && AllChars(a.country, NotBar)
    requires AllChars(b.plz, NotBar) && AllChars(b.city, NotBar) && AllChars(b.country, NotBar)
    ensures CacheKey(a) == CacheKey(b) <==>
      a.plz == b.plz && NormalizeCity(a.city) == NormalizeCity(b.city) && a.country == b.country
  {
    CacheKeyParts(a);
    CacheKeyParts(b);
  }

  /** Extracted locations never contain the key separator. */
  lemma ExtractedHasNoBar(loc: Location)
    requires WellFormed(loc)
    ensures AllChars(loc.plz, NotBar) && AllChars(loc.city, NotBar) && AllChars(loc.country, NotBar)
  {
    ClassHasNoBar(loc.city, IsCityChar);
    ClassHasNoBar(loc.plz, IsDigit);
    KnownCountriesHaveNoBar();
  }

  lemma ClassHasNoBar(s: string, p: char -> bool)
    requires AllChars(s, p) && !p('|')
    ensures AllChars(s, NotBar)
  {
    forall k | 0 <= k < |s| ensures NotBar(s[k]) {
      assert p(s[k]);
    }
  }

  lemma KnownCountriesHaveNoBar()
    ensures forall c | KnownCountry(c) :: AllChars(c, NotBar)
  {
    assert AllChars("deutschland", NotBar);
    assert AllChars("\U{F6}sterreich", NotBar);
    assert AllChars("schweiz", NotBar);
    assert AllChars("italien", NotBar);
  }

  /** `get_country_code`: the ISO code Nominatim is asked to restrict to. */
  function CountryCode(country: string): (code: string)
    ensures LowerStr(country) == "deutschland" ==> code == "de"
    ensures LowerStr(country) == "\U{F6}sterreich" ==> code == "at"
    ensures LowerStr(country) == "schweiz" ==> code == "ch"
    ensures LowerStr(country) == "italien" ==> code == "it"
    ensures LowerStr(country) !in {"deutschland", "\U{F6}sterreich", "schweiz", "italien"} ==> code == "de"
  {
    var mapping := map["deutschland" := "de", "\U{F6}sterreich" := "at", "schweiz" := "ch", "italien" := "it"];
    var key := LowerStr(country);
    if key in mapping then mapping[key] else "de"
  }

  /** Every country the extraction yields has its own code; none falls through to the default. */
  lemma KnownCountryCode(country: string)
    requires KnownCountry(country)
    ensures CountryCode(country) == (if country == "\U{F6}sterreich" then "at" else if country == "schweiz" then "ch"
                                     else if country == "italien" then "it" else "de")
  {
    if country == "deutschland" {
      assert AllChars(country, LowerFixed);
    } else if country == "\U{F6}sterreich" {
      assert AllChars(country, LowerFixed);
    } else if country == "schweiz" {
      assert AllChars(country, LowerFixed);
    } else {
      assert AllChars(country, LowerFixed);
    }
    LowerStrFixed(country);
  }

  // ---------------------------------------------------------------------------
  // find_missing_locations

  /** What the scan has produced after a prefix of the stations: the missing list and the seen keys. */
  datatype Scan = Scan(missing: seq<Location>, seen: set<string>)

  predicate AllReadable(stations: seq<Record>)
  {
    forall k | 0 <= k < |stations| :: AddressReadable(stations[k])
  }

  /** The location `extract_location` yields for each station. */
  function Extracted(stations: seq<Record>): (locs: seq<Option<Location>>)
    requires AllReadable(stations)
    ensures |locs| == |stations|
  {
    seq(|stations|, k requires 0 <= k < |stations| => ExtractLocation(stations[k]))
  }

  /** The scan over the extracted locations, one station at a time, keyed by `key`. */
  function ScanLocations(locs: seq<Option<Location>>, cacheKeys: set<string>, key: Location -> string): Scan
  {
    if locs == [] then Scan([], {})
    else ScanStep(ScanLocations(locs[..|locs| - 1], cacheKeys, key), locs[|locs| - 1], cacheKeys, key)
  }

  /** The loop body of `find_missing_locations`: skip stations without a location or with a seen key. */
  function ScanStep(prev: Scan, location: Option<Location>, cacheKeys: set<string>, key: Location -> string): Scan
  {
    match location
    case None => prev
    case Some(loc) =>
      var k := key(loc);
      if k in prev.seen then prev
      else Scan(if k !in cacheKeys then prev.missing + [loc] else prev.missing, prev.seen + {k})
  }

  /** One pass of `find_missing_locations`' loop: a location without a key seen before is recorded, and listed when the cache lacks it. */
  method ScanOne(missing: seq<Location>, seen: set<string>, location: Option<Location>, cache: map<string, CacheEntry>)
    returns (missing': seq<Location>, seen': set<string>)
    ensures Scan(missing', seen') == ScanStep(Scan(missing, seen), location, cache.Keys, CacheKey)
  {
    missing', seen' := missing, seen;
    if location.None? {
      return;
    }
    var loc := location.value;
    var key := CacheKey(loc);
    if key in seen {
      return;
    }
    seen' := seen + {key};
    if key !in cache {
      missing' := missing + [loc];
    }
  }

  /** `find_missing_locations(stations, cache)`. */
  method FindMissingLocations(stations: seq<Record>, cache: map<string, CacheEntry>)
    returns (missing: seq<Location>)
    requires AllReadable(stations)
    ensures missing == ScanLocations(Extracted(stations), cache.Keys, CacheKey).missing
  {
    ghost var locs := Extracted(stations);
    missing := [];
    var seen: set<string> := {};
    for i := 0 to |stations|
      invariant Scan(missing, seen) == ScanLocations(locs[..i], cache.Keys, CacheKey)
    {
      assert locs[..i + 1][..i] == locs[..i];
      var location := ExtractLocation(stations[i]);
      assert location == locs[i];
      missing, seen := ScanOne(missing, seen, location, cache);
    }
    assert locs[..|stations|] == locs;
  }

  /** The keys of every location in `locs`. */
  function KeysOf(locs: seq<Option<Location>>, key: Location -> string): set<string>
  {
    set k | 0 <= k < |locs| && locs[k].Some? :: key(locs[k].value)
  }

  /** The scan's `seen` set is exactly the set of keys of the extracted locations. */
  lemma {:induction false} ScanSeen(locs: seq<Option<Location>>, cacheKeys: set<string>, key: Location -> string)
    ensures ScanLocations(locs, cacheKeys, key).seen == KeysOf(locs, key)
  {
    if locs != [] {
      var n := |locs| - 1;
      var init := locs[..n];
      ScanSeen(init, cacheKeys, key);
      assert forall k | 0 <= k < n :: init[k] == locs[k];
      assert KeysOf(locs, key) == KeysOf(init, key) + (if locs[n].Some? then {key(locs[n].value)} else {});
    }
  }

  /**
   * The missing list holds no cached key, no key twice, and only keys the
   * scan has seen.
   */
  lemma {:induction false} ScanMissingFresh(locs: seq<Option<Location>>, cacheKeys: set<string>, key: Location -> string)
    ensures forall m | 0 <= m < |ScanLocations(locs, cacheKeys, key).missing| ::
      var x := key(ScanLocations(locs, cacheKeys, key).missing[m]);
      x !in cacheKeys && x in ScanLocations(locs, cacheKeys, key).seen
    ensures forall m, m' | 0 <= m < m' < |ScanLocations(locs, cacheKeys, key).missing| ::
      key(ScanLocations(locs, cacheKeys, key).missing[m]) != key(ScanLocations(locs, cacheKeys, key).missing[m'])
  {
    if locs != [] {
      var init := locs[..|locs| - 1];
      ScanMissingFresh(init, cacheKeys, key);
      var prev := ScanLocations(init, cacheKeys, key);
      var sc := ScanLocations(locs, cacheKeys, key);
      assert sc == ScanStep(prev, locs[|locs| - 1], cacheKeys, key);
      if sc != prev {
        var loc := locs[|locs| - 1].value;
        assert key(loc) !in prev.seen;
        assert forall m | 0 <= m < |prev.missing| :: sc.missing[m] == prev.missing[m];
      }
    }
  }

  /** Every entry of the missing list is one of the extracted locations. */
  lemma {:induction false} ScanMissingSound(locs: seq<Option<Location>>, cacheKeys: set<string>, key: Location -> string)
    ensures forall m | 0 <= m < |ScanLocations(locs, cacheKeys, key).missing| ::
      Some(ScanLocations(locs, cacheKeys, key).missing[m]) in locs
  {
    if locs != [] {
      var init := locs[..|locs| - 1];
      ScanMissingSound(init, cacheKeys, key);
      var prev := ScanLocations(init, cacheKeys, key);
      var sc := ScanLocations(locs, cacheKeys, key);
      forall m | 0 <= m < |sc.missing|
        ensures Some(sc.missing[m]) in locs
      {
        if m < |prev.missing| {
          assert sc.missing[m] == prev.missing[m];
          var k :| 0 <= k < |init| && init[k] == Some(prev.missing[m]);
          assert locs[k] == init[k];
        } else {
          assert locs[|locs| - 1] == Some(sc.missing[m]);
        }
      }
    }
  }

  /** Every seen key that is not cached has an entry in the missing list. */
  lemma {:induction false} ScanMissingComplete(locs: seq<Option<Location>>, cacheKeys: set<string>, key: Location -> string)
    ensures forall x | x in ScanLocations(locs, cacheKeys, key).seen && x !in cacheKeys ::
      exists m | 0 <= m < |ScanLocations(locs, cacheKeys, key).missing| :: key(ScanLocations(locs, cacheKeys, key).missing[m]) == x
  {
    if locs != [] {
      var init := locs[..|locs| - 1];
      ScanMissingComplete(init, cacheKeys, key);
      var prev := ScanLocations(init, cacheKeys, key);
      var sc := ScanLocations(locs, cacheKeys, key);
      forall x | x in sc.seen && x !in cacheKeys
        ensures exists m | 0 <= m < |sc.missing| :: key(sc.missing[m]) == x
      {
        if x in prev.seen {
          var m :| 0 <= m < |prev.missing| && key(prev.missing[m]) == x;
          assert sc.missing[m] == prev.missing[m];
        } else {
          assert key(sc.missing[|sc.missing| - 1]) == x;
        }
      }
    }
  }

  /**
   * What the missing list holds: each entry is extracted from some station,
   * no two entries share a key, no entry's key is already cached, and every
   * extracted key that is not cached is represented.
   */
  lemma ScanFacts(locs: seq<Option<Location>>, cacheKeys: set<string>, key: Location -> string)
    ensures forall m | 0 <= m < |ScanLocations(locs, cacheKeys, key).missing| ::
      var x := key(ScanLocations(locs, cacheKeys, key).missing[m]);
      x !in cacheKeys && x in KeysOf(locs, key)
    ensures forall m, m' | 0 <= m < m' < |ScanLocations(locs, cacheKeys, key).missing| ::
      key(ScanLocations(locs, cacheKeys, key).missing[m]) != key(ScanLocations(locs, cacheKeys, key).missing[m'])
    ensures forall m | 0 <= m < |ScanLocations(locs, cacheKeys, key).missing| ::
      Some(ScanLocations(locs, cacheKeys, key).missing[m]) in locs
    ensures forall x | x in KeysOf(locs, key) && x !in cacheKeys ::
      exists m | 0 <= m < |ScanLocations(locs, cacheKeys, key).missing| :: key(ScanLocations(locs, cacheKeys, key).missing[m]) == x
  {
    ScanSeen(locs, cacheKeys, key);
    ScanMissingFresh(locs, cacheKeys, key);
    ScanMissingSound(locs, cacheKeys, key);
    ScanMissingComplete(locs, cacheKeys, key);
  }

  // ---------------------------------------------------------------------------
  // The cache-filling loop of main

  /** A cache value: the coordinate pair found, or `[None, None]` for a failed lookup. */
  datatype CacheEntry = Coords(lat: real, lon: real) | Failed

  /**
   * The geocoder as an oracle: the answer to the `n`-th request of the run for
   * a location (Nominatim, the network and the rate limit are outside the model).
   */
  type Geocoder = (nat, Location) -> Option<(real, real)>

  /** The entry stored for the `n`-th request. */
  function EntryFor(geocode: Geocoder, n: nat, loc: Location): CacheEntry
  {
    match geocode(n, loc)
    case Some((lat, lon)) => Coords(lat, lon)
    case None => Failed
  }

  /** The cache after each request of `batch` stored its entry under `key` of its location. */
  function Filled(cache: map<string, CacheEntry>, batch: seq<Location>, geocode: Geocoder, key: Location -> string)
    : map<string, CacheEntry>
  {
    if batch == [] then cache
    else
      var n := |batch| - 1;
      Filled(cache, batch[..n], geocode, key)[key(batch[n]) := EntryFor(geocode, n, batch[n])]
  }

  /** The number of requests that found coordinates. */
  function Found(batch: seq<Location>, geocode: Geocoder): nat
  {
    if batch == [] then 0
    else
      var n := |batch| - 1;
      Found(batch[..n], geocode) + (if geocode(n, batch[n]).Some? then 1 else 0)
  }

  lemma FilledStep(cache: map<string, CacheEntry>, batch: seq<Location>, i: nat, geocode: Geocoder)
    requires i < |batch|
    ensures Filled(cache, batch[..i + 1], geocode, CacheKey)
         == Filled(cache, batch[..i], geocode, CacheKey)[CacheKey(batch[i]) := EntryFor(geocode, i, batch[i])]
    ensures Found(batch[..i + 1], geocode) == Found(batch[..i], geocode) + (if geocode(i, batch[i]).Some? then 1 else 0)
  {
    assert batch[..i + 1][..i] == batch[..i];
  }

  /** The loop over `missing[:max]`: each location is geocoded once and its entry stored under its cache key. */
  method FillCache(cache: map<string, CacheEntry>, missing: seq<Location>, max: int, geocode: Geocoder)
    returns (cache': map<string, CacheEntry>, newEntries: nat, failedEntries: nat)
    ensures cache' == Filled(cache, SliceTo(missing, max), geocode, CacheKey)
    ensures newEntries == Found(SliceTo(missing, max), geocode)
    ensures newEntries + failedEntries == |SliceTo(missing, max)|
  {
    var batch := SliceTo(missing, max);
    cache' := cache;
    newEntries, failedEntries := 0, 0;
    for i := 0 to |batch|
      invariant cache' == Filled(cache, batch[..i], geocode, CacheKey)
      invariant newEntries == Found(batch[..i], geocode)
      invariant newEntries + failedEntries == i
    {
      FilledStep(cache, batch, i, geocode);
      var loc := batch[i];
      var coords := geocode(i, loc);
      var k := CacheKey(loc);
      if coords.Some? {
        cache' := cache'[k := Coords(coords.value.0, coords.value.1)];
        newEntries := newEntries + 1;
      } else {
        cache' := cache'[k := Failed];
        failedEntries := failedEntries + 1;
      }
    }
    assert batch[..|batch|] == batch;
  }

  /** The batch's keys are new to the cache and pairwise distinct. */
  predicate FreshKeys(cache: map<string, CacheEntry>, batch: seq<Location>, key: Location -> string)
  {
    && (forall m | 0 <= m < |batch| :: key(batch[m]) !in cache)
    && (forall m, m' | 0 <= m < m' < |batch| :: key(batch[m]) != key(batch[m']))
  }

  /** The keys a batch writes. */
  function BatchKeys(batch: seq<Location>, key: Location -> string): set<string>
  {
    set m | 0 <= m < |batch| :: key(batch[m])
  }

  /**
   * Filling writes exactly the batch's keys: every entry not in the batch
   * (failure markers included) keeps its value.
   */
  lemma {:induction false} FilledKeys(cache: map<string, CacheEntry>, batch: seq<Location>, geocode: Geocoder, key: Location -> string)
    ensures Filled(cache, batch, geocode, key).Keys == cache.Keys + BatchKeys(batch, key)
    ensures forall k | k in cache && k !in BatchKeys(batch, key) :: Filled(cache, batch, geocode, key)[k] == cache[k]
  {
    if batch != [] {
      var n := |batch| - 1;
      var init := batch[..n];
      FilledKeys(cache, init, geocode, key);
      assert BatchKeys(batch, key) == BatchKeys(init, key) + {key(batch[n])} by {
        assert forall m | 0 <= m < n :: init[m] == batch[m];
      }
    }
  }

  /** With distinct keys each request's own answer is what ends up stored. */
  lemma {:induction false} FilledEntries(cache: map<string, CacheEntry>, batch: seq<Location>, geocode: Geocoder, key: Location -> string)
    requires FreshKeys(cache, batch, key)
    ensures forall m | 0 <= m < |batch| ::
      key(batch[m]) in Filled(cache, batch, geocode, key) &&
      Filled(cache, batch, geocode, key)[key(batch[m])] == EntryFor(geocode, m, batch[m])
  {
    if batch != [] {
      var n := |batch| - 1;
      var init := batch[..n];
      assert forall m | 0 <= m < n :: init[m] == batch[m];
      FilledEntries(cache, init, geocode, key);
    }
  }

  /** Distinct keys: one new key per request. */
  lemma {:induction false} BatchKeysSize(batch: seq<Location>, key: Location -> string)
    requires forall m, m' | 0 <= m < m' < |batch| :: key(batch[m]) != key(batch[m'])
    ensures |BatchKeys(batch, key)| == |batch|
  {
    if batch != [] {
      var n := |batch| - 1;
      var init := batch[..n];
      assert forall m | 0 <= m < n :: init[m] == batch[m];
      BatchKeysSize(init, key);
      assert BatchKeys(batch, key) == BatchKeys(init, key) + {key(batch[n])};
      assert key(batch[n]) !in BatchKeys(init, key);
    }
  }

  /**
   * With fresh, distinct keys, filling keeps every old entry (failure markers
   * included), adds exactly one entry per request, and stores each answer.
   */
  lemma FilledFacts(cache: map<string, CacheEntry>, batch: seq<Location>, geocode: Geocoder, key: Location -> string)
    requires FreshKeys(cache, batch, key)
    ensures var c := Filled(cache, batch, geocode, key);
      && |c.Keys| == |cache.Keys| + |batch|
      && (forall k | k in cache :: k in c && c[k] == cache[k])
      && (forall m | 0 <= m < |batch| :: key(batch[m]) in c && c[key(batch[m])] == EntryFor(geocode, m, batch[m]))
  {
    FilledKeys(cache, batch, geocode, key);
    FilledEntries(cache, batch, geocode, key);
    BatchKeysSize(batch, key);
    assert cache.Keys * BatchKeys(batch, key) == {};
  }

  /** What a run of `main` ends with. */
  datatype Outcome =
    | NoStations
    | NothingMissing
    | DryRun(preview: seq<Location>)
    | Updated(cache: map<string, CacheEntry>, newEntries: nat, failedEntries: nat)

  /** `main` without argument parsing, file access and printing. */
  method UpdateCache(stations: seq<Record>, cache: map<string, CacheEntry>, max: int, dryRun: bool, geocode: Geocoder)
    returns (outcome: Outcome)
    requires AllReadable(stations)
    ensures stations == [] ==> outcome == NoStations
    ensures stations != [] && ScanLocations(Extracted(stations), cache.Keys, CacheKey).missing == [] ==> outcome == NothingMissing
    ensures stations != [] && ScanLocations(Extracted(stations), cache.Keys, CacheKey).missing != [] && dryRun ==>
      outcome == DryRun(SliceTo(ScanLocations(Extracted(stations), cache.Keys, CacheKey).missing, max))
    ensures stations != [] && ScanLocations(Extracted(stations), cache.Keys, CacheKey).missing != [] && !dryRun ==>
      outcome.Updated?
    ensures outcome.Updated? ==>
      var batch := SliceTo(ScanLocations(Extracted(stations), cache.Keys, CacheKey).missing, max);
      && !dryRun
      && outcome.cache == Filled(cache, batch, geocode, CacheKey)
      && outcome.newEntries == Found(batch, geocode)
      && outcome.newEntries + outcome.failedEntries == |batch|
  {
    if stations == [] {
      return NoStations;
    }
    var missing := FindMissingLocations(stations, cache);
    if missing == [] {
      return NothingMissing;
    }
    if dryRun {
      return DryRun(SliceTo(missing, max));
    }
    var cache', newEntries, failedEntries := FillCache(cache, missing, max, geocode);
    return Updated(cache', newEntries, failedEntries);
  }

  /** The cache grows by exactly `min(len(missing), max)` entries and keeps every old one. */
  lemma CacheGrowth(stations: seq<Record>, cache: map<string, CacheEntry>, max: int, geocode: Geocoder)
    requires AllReadable(stations) && 0 <= max
    ensures var missing := ScanLocations(Extracted(stations), cache.Keys, CacheKey).missing;
      var c := Filled(cache, SliceTo(missing, max), geocode, CacheKey);
      && |c.Keys| == |cache.Keys| + Min(|missing|, max)
      && forall key | key in cache :: key in c && c[key] == cache[key]
  {
    var missing := ScanLocations(Extracted(stations), cache.Keys, CacheKey).missing;
    ScanFacts(Extracted(stations), cache.Keys, CacheKey);
    var batch := SliceTo(missing, max);
    assert forall m | 0 <= m < |batch| :: batch[m] == missing[m];
    assert FreshKeys(cache, batch, CacheKey);
    FilledFacts(cache, batch, geocode, CacheKey);
  }
}
