/**
 * fix_coordinates.py: the offline coordinate fallback. A station's 5-digit
 * postal code (PLZ) selects a regional base point, and the code's own digits
 * add a fixed offset. Coordinates are integers in units of 1e-4 degrees: every
 * base has one decimal place and every offset is a multiple of 0.003, so the
 * script's `round(..., 4)` lands exactly on these values.
 */
module FixCoordinates {
  import opened Common
  import opened Text
  import opened Regex
  import opened Records

  // ---------------------------------------------------------------------------
  // extract_plz_from_address

  /** Five digits at `i` that are a whole word: no word character touches either end. */
  predicate IsolatedFive(s: string, i: nat)
  {
    && DigitsAt(s, i, 5)
    && (i == 0 || !IsWordChar(s[i - 1]))
    && (i + 5 == |s| || !IsWordChar(s[i + 5]))
  }

  /** `\b(\d{5})\b` tried at position `i`. */
  function PlzAt(s: string, i: nat): Option<string>
  {
    if i + 5 <= |s| && Boundary(s, i) && DigitsAt(s, i, 5) && Boundary(s, i + 5)
    then Some(s[i..i + 5]) else None
  }

  lemma PlzAtIsolated(s: string, i: nat)
    ensures PlzAt(s, i).Some? <==> IsolatedFive(s, i)
    ensures PlzAt(s, i).Some? ==> PlzAt(s, i).value == s[i..i + 5]
  {
    if DigitsAt(s, i, 5) {
      assert IsWordChar(s[i]) && IsWordChar(s[i + 4]);
    }
  }

  /** `re.search(r'\b(\d{5})\b', address).group(1)`, or None. */
  function ExtractPlz(address: string): (r: Option<string>)
    ensures r.Some? ==> |r.value| == 5 && AllDigits(r.value)
    ensures r.Some? <==> exists i: nat :: IsolatedFive(address, i)
    ensures r.Some? ==>
      exists i: nat :: (IsolatedFive(address, i) && r.value == address[i..i + 5]
        && forall j: nat | j < i :: !IsolatedFive(address, j))
  {
    var m := (i: nat) => PlzAt(address, i);
    var found := Search(|address|, 0, m);
    forall i: nat ensures PlzAt(address, i).Some? <==> IsolatedFive(address, i) {
      PlzAtIsolated(address, i);
    }
    if found.Some? then
      var i := found.value.0;
      PlzAtIsolated(address, i);
      assert IsolatedFive(address, i) && found.value.1 == address[i..i + 5];
      assert forall j: nat | j < i :: !IsolatedFive(address, j) by {
        forall j: nat | j < i ensures !IsolatedFive(address, j) {
          assert m(j).None?;
        }
      }
      Some(found.value.1)
    else
      assert forall i: nat :: !IsolatedFive(address, i) by {
        forall i: nat ensures !IsolatedFive(address, i) {
          if i <= |address| { assert m(i).None?; }
        }
      }
      None
  }

  // ---------------------------------------------------------------------------
  // get_coordinates_for_plz

  /** A point in units of 1e-4 degrees. */
  datatype Coord = Coord(lat: int, lon: int)

  function Digit(c: char): (d: nat)
    requires IsDigit(c)
    ensures d <= 9
  {
    c as int - '0' as int
  }

  /** The regional base point, chosen by the leading digit and thresholds on `int(plz)`. */
  function Base(plz: string): (b: Option<Coord>)
    requires |plz| == 5 && AllDigits(plz)
  {
    BaseFor(plz[0], DigitsValue(plz))
  }

  function BaseFor(first: char, v: nat): Option<Coord>
  {
    match first
    case '0' =>
      if v < 3000 then Some(Coord(518000, 118000))
      else if v < 7000 then Some(Coord(508000, 112000))
      else if v < 9000 then Some(Coord(511000, 137000))
      else Some(Coord(513000, 124000))
    case '1' =>
      if v < 14000 then Some(Coord(525000, 134000))
      else Some(Coord(524000, 125000))
    case '2' =>
      if v < 23000 then Some(Coord(536000, 100000))
      else if v < 26000 then Some(Coord(543000, 98000))
      else Some(Coord(531000, 88000))
    case '3' =>
      if v < 34000 then Some(Coord(524000, 97000))
      else if v < 36000 then Some(Coord(515000, 99000))
      else Some(Coord(513000, 95000))
    case '4' =>
      if v < 45000 then Some(Coord(515000, 72000))
      else if v < 48000 then Some(Coord(519000, 76000))
      else Some(Coord(518000, 88000))
    case '5' =>
      if v < 53000 then Some(Coord(509000, 69000))
      else if v < 57000 then Some(Coord(504000, 76000))
      else Some(Coord(500000, 83000))
    case '6' =>
      if v < 63000 then Some(Coord(501000, 87000))
      else if v < 66000 then Some(Coord(494000, 78000))
      else Some(Coord(494000, 70000))
    case '7' =>
      if v < 73000 then Some(Coord(488000, 92000))
      else if v < 77000 then Some(Coord(490000, 84000))
      else Some(Coord(480000, 78000))
    case '8' =>
      if v < 83000 then Some(Coord(481000, 116000))
      else if v < 87000 then Some(Coord(484000, 109000))
      else Some(Coord(477000, 103000))
    case '9' =>
      if v < 93000 then Some(Coord(495000, 111000))
      else if v < 96000 then Some(Coord(499000, 109000))
      else Some(Coord(490000, 121000))
    case _ => None
  }

  /** The latitude offset: `((int(plz[2:5]) % 100) / 100 - 0.5) * 0.3` degrees. */
  function LatOffset(plz: string): int
    requires |plz| == 5 && AllDigits(plz)
  {
    (Digit(plz[3]) * 10 + Digit(plz[4]) - 50) * 30
  }

  /** The longitude offset: `((int(plz[2:5]) // 100) % 10 / 10 - 0.5) * 0.3` degrees. */
  function LonOffset(plz: string): int
    requires |plz| == 5 && AllDigits(plz)
  {
    (Digit(plz[2]) - 5) * 300
  }

  /** `get_coordinates_for_plz`: None unless the code has exactly 5 characters. */
  function GetCoordinates(plz: string): (r: Option<Coord>)
    requires |plz| == 5 ==> AllDigits(plz)
    ensures |plz| != 5 ==> r.None?
    ensures r.Some? ==>
      (Base(plz).Some?
       && -1500 <= r.value.lat - Base(plz).value.lat <= 1470
       && -1500 <= r.value.lon - Base(plz).value.lon <= 1200)
  {
    if |plz| != 5 then None
    else match Base(plz)
      case None => None
      case Some(b) => Some(Coord(b.lat + LatOffset(plz), b.lon + LonOffset(plz)))
  }

  /** `int(t)` of a 5-digit string, digit by digit. */
  lemma FiveDigitsValue(t: string)
    requires |t| == 5 && AllDigits(t)
    ensures DigitsValue(t) == Digit(t[0]) * 10000 + Digit(t[1]) * 1000 + Digit(t[2]) * 100 + Digit(t[3]) * 10 + Digit(t[4])
    ensures DigitsValue(t[2..5]) == Digit(t[2]) * 100 + Digit(t[3]) * 10 + Digit(t[4])
  {
    assert t[..4][..3] == t[..3] && t[..3][..2] == t[..2] && t[..2][..1] == t[..1];
    assert DigitsValue(t[..1]) == Digit(t[0]);
    assert DigitsValue(t[..2]) == Digit(t[0]) * 10 + Digit(t[1]);
    assert DigitsValue(t[..3]) == Digit(t[0]) * 100 + Digit(t[1]) * 10 + Digit(t[2]);
    assert DigitsValue(t[..4]) == Digit(t[0]) * 1000 + Digit(t[1]) * 100 + Digit(t[2]) * 10 + Digit(t[3]);
    var u := t[2..5];
    assert u[..2][..1] == u[..1];
    assert DigitsValue(u[..1]) == Digit(t[2]);
    assert DigitsValue(u[..2]) == Digit(t[2]) * 10 + Digit(t[3]);
  }

  /** The offsets are the source's formulas on `int(plz[2:5])`, scaled to 1e-4 degrees. */
  lemma OffsetsFollowFormula(plz: string)
    requires |plz| == 5 && AllDigits(plz)
    ensures var last := DigitsValue(plz[2..5]);
      && LatOffset(plz) == (last % 100 - 50) * 30
      && LonOffset(plz) == ((last / 100) % 10 - 5) * 300
  {
    FiveDigitsValue(plz);
    DivModHundred(Digit(plz[2]), Digit(plz[3]) * 10 + Digit(plz[4]));
  }

  /** Splitting a number below 1000 into its hundreds and the rest. */
  lemma DivModHundred(h: nat, r: nat)
    requires h <= 9 && r < 100
    ensures (h * 100 + r) % 100 == r
    ensures ((h * 100 + r) / 100) % 10 == h
  {
  }

  /** Every 5-digit code gets a point, and neither coordinate is zero (so `if lat and lon` holds). */
  lemma CoordinatesForEveryDigitCode(plz: string)
    requires |plz| == 5 && AllDigits(plz)
    ensures GetCoordinates(plz).Some?
    ensures GetCoordinates(plz).value.lat >= 470000 - 1500
    ensures GetCoordinates(plz).value.lon >= 69000 - 1500
  {
    assert IsDigit(plz[0]);
  }

  /** The base point depends only on the first two digits (every threshold is a multiple of 1000). */
  lemma BaseByFirstTwoDigits(p: string, q: string)
    requires |p| == 5 && AllDigits(p) && |q| == 5 && AllDigits(q)
    requires p[0] == q[0] && p[1] == q[1]
    ensures Base(p) == Base(q)
  {
    FiveDigitsValue(p);
    FiveDigitsValue(q);
    SameThousand(p[0], DigitsValue(p), DigitsValue(q), Digit(p[0]) * 10 + Digit(p[1]));
  }

  /** Values in the same block of a thousand share their base point. */
  lemma SameThousand(first: char, a: nat, b: nat, h: int)
    requires 1000 * h <= a < 1000 * h + 1000 && 1000 * h <= b < 1000 * h + 1000
    ensures BaseFor(first, a) == BaseFor(first, b)
  {
  }

  /** The worked example: 70772 lies in the Stuttgart region (48.8, 9.2) and maps to (48.866, 9.26). */
  lemma Example70772()
    ensures GetCoordinates("70772") == Some(Coord(488660, 92600))
  {
    var p := "70772";
    FiveDigitsValue(p);
    assert DigitsValue(p) == 70772;
  }

  // ---------------------------------------------------------------------------
  // fix_coordinates_in_json

  /** `station.get('address', '')`. */
  function Address(r: Record): string
    requires StrIfPresent(r, "address")
  {
    GetStr(r, "address", "")
  }

  /** A station the loop may visit without raising: a string address, and a name it can print. */
  predicate Processable(r: Record)
  {
    && StrIfPresent(r, "address")
    && (ExtractPlz(Address(r)).Some? ==> "name" in r && r["name"].Str?)
  }

  /** The loop's decision for one station: the PLZ found and the point it yields, if both exist and are truthy. */
  function NewPoint(r: Record): Option<(string, Coord)>
    requires StrIfPresent(r, "address")
  {
    match ExtractPlz(Address(r))
    case None => None
    case Some(plz) =>
      match GetCoordinates(plz)
      case None => None
      case Some(c) => if c.lat != 0 && c.lon != 0 then Some((plz, c)) else None
  }

  /** A coordinate as the JSON number the script writes. */
  function Degrees(e4: int): Value
  {
    Num(e4 as real / 10000.0)
  }

  /** The station after the loop body: the four fields set together, or unchanged. */
  function Fixed(r: Record): (r': Record)
    requires StrIfPresent(r, "address")
  {
    match NewPoint(r)
    case None => r
    case Some((plz, c)) =>
      r["latitude" := Degrees(c.lat)]["longitude" := Degrees(c.lon)]
       ["plz" := Str(plz)]["plz_prefix" := Str(plz[..1])]
  }

  predicate WillFix(r: Record)
  {
    StrIfPresent(r, "address") && NewPoint(r).Some?
  }

  /** A station is rewritten exactly when its address holds a word-bounded 5-digit code. */
  lemma WillFixIffPlz(r: Record)
    requires StrIfPresent(r, "address")
    ensures WillFix(r) <==> ExtractPlz(Address(r)).Some?
  {
    var plz := ExtractPlz(Address(r));
    if plz.Some? {
      CoordinatesForEveryDigitCode(plz.value);
    }
  }

  /** What the loop does to one station: the four fields and nothing else, or nothing. */
  lemma FixedFields(r: Record)
    requires StrIfPresent(r, "address")
    ensures !WillFix(r) ==> Fixed(r) == r
    ensures WillFix(r) ==>
      var plz := ExtractPlz(Address(r)).value;
      var c := GetCoordinates(plz).value;
      && Fixed(r)["plz"] == Str(plz)
      && Fixed(r)["plz_prefix"] == Str([plz[0]])
      && Fixed(r)["latitude"] == Degrees(c.lat)
      && Fixed(r)["longitude"] == Degrees(c.lon)
      && Fixed(r).Keys == r.Keys + {"latitude", "longitude", "plz", "plz_prefix"}
      && forall k | k in r && k !in {"latitude", "longitude", "plz", "plz_prefix"} :: Fixed(r)[k] == r[k]
  {
  }

  predicate AllProcessable(xs: seq<Record>)
  {
    forall k | 0 <= k < |xs| :: Processable(xs[k])
  }

  /** Every station of the list passed through the loop body. */
  function FixedAll(xs: seq<Record>): (ys: seq<Record>)
    requires AllProcessable(xs)
    ensures |ys| == |xs|
  {
    seq(|xs|, k requires 0 <= k < |xs| => Fixed(xs[k]))
  }

  /** The loop body for one station: look up its PLZ and, if it yields a point, write the four fields. */
  method FixStation(station: Record) returns (updated: Record, didFix: bool)
    requires StrIfPresent(station, "address")
    ensures updated == Fixed(station) && didFix == WillFix(station)
  {
    var found := NewPoint(station);
    if found.Some? {
      var (plz, c) := found.value;
      updated := station["latitude" := Degrees(c.lat)]["longitude" := Degrees(c.lon)]
                   ["plz" := Str(plz)]["plz_prefix" := Str(plz[..1])];
      didFix := true;
    } else {
      updated, didFix := station, false;
    }
  }

  lemma FixedAllElementwise(xs: seq<Record>, ys: seq<Record>)
    requires AllProcessable(xs) && |ys| == |xs|
    requires forall k | 0 <= k < |xs| :: StrIfPresent(xs[k], "address") && ys[k] == Fixed(xs[k])
    ensures ys == FixedAll(xs)
  {
  }

  lemma CountFixStep(xs: seq<Record>, i: nat, fixed: nat, didFix: bool)
    requires i < |xs| && fixed == Count(xs[..i], WillFix) && didFix == WillFix(xs[i])
    ensures Count(xs[..i + 1], WillFix) == fixed + (if didFix then 1 else 0)
  {
    CountSnoc(xs, i, WillFix);
  }

  method FixAt(stations: array<Record>, i: nat) returns (didFix: bool)
    requires i < stations.Length && StrIfPresent(stations[i], "address")
    modifies stations
    ensures stations[..] == old(stations[..])[i := Fixed(old(stations[i]))]
    ensures didFix == WillFix(old(stations[i]))
  {
    var updated;
    updated, didFix := FixStation(stations[i]);
    stations[i] := updated;
  }

  /**
   * The loop of `fix_coordinates_in_json` over the loaded station list: every
   * station with a PLZ gets new coordinates (overwriting old ones), the others
   * stay as they were, and the two counters partition the list.
   */
  method FixCoordinatesInJson(stations: array<Record>) returns (fixed: nat, skipped: nat)
    requires AllProcessable(stations[..])
    modifies stations
    ensures fixed + skipped == stations.Length
    ensures stations[..] == FixedAll(old(stations[..]))
    ensures fixed == Count(old(stations[..]), WillFix)
  {
    ghost var xs := stations[..];
    fixed, skipped := 0, 0;
    for i := 0 to stations.Length
      invariant fixed + skipped == i
      invariant forall k | 0 <= k < i :: StrIfPresent(xs[k], "address") && stations[k] == Fixed(xs[k])
      invariant forall k | i <= k < stations.Length :: stations[k] == xs[k]
      invariant fixed == Count(xs[..i], WillFix)
    {
      assert StrIfPresent(xs[i], "address");
      var didFix := FixAt(stations, i);
      CountFixStep(xs, i, fixed, didFix);
      if didFix {
        fixed := fixed + 1;
      } else {
        skipped := skipped + 1;
      }
    }
    assert xs[..stations.Length] == xs;
    FixedAllElementwise(xs, stations[..]);
  }

  /** Every station is fixed or skipped, and the fixed ones are exactly those with a PLZ. */
  lemma {:induction false} FixedCountIsPlzCount(xs: seq<Record>)
    requires forall k | 0 <= k < |xs| :: StrIfPresent(xs[k], "address")
    ensures Count(xs, WillFix) == Count(xs, (r: Record) => StrIfPresent(r, "address") && ExtractPlz(Address(r)).Some?)
  {
    if xs != [] {
      var init := xs[..|xs| - 1];
      FixedCountIsPlzCount(init);
      WillFixIffPlz(xs[|xs| - 1]);
    }
  }
}
