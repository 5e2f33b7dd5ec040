/**
 * js/map.js: the display helpers of the map page. A postcode prefix is named
 * as a region, a station gets the raptor marker when it specialises in birds
 * of prey, its popup is built as HTML text, and the statistics line gives the
 * number of stations and the three regions with the most of them.
 */
module MapView {
  import opened Common
  import opened Text
  import opened Records
  import opened Sorting

  /** `station[key]`: the value, or `None` for `undefined`. */
  function Field(station: Record, key: string): Option<Value>
  {
    if key in station then Some(station[key]) else None
  }

  // ---------------------------------------------------------------------------
  // getRegionName

  /** The label the region map holds under a string key, or "Unbekannt". */
  function RegionOfKey(key: string): string
  {
    if |key| == 1 && IsDigit(key[0]) then "PLZ " + key
    else if key == "\U{F6}sterreich" then "\U{D6}sterreich"
    else if key == "schweiz" then "Schweiz"
    else if key == "italien" then "Italien"
    else "Unbekannt"
  }

  /** A label for a region: "PLZ" and a digit, one of the three countries, or "Unbekannt". */
  predicate IsRegionLabel(r: string)
  {
    || (|r| == 5 && r[..4] == "PLZ " && IsDigit(r[4]))
    || r == "\U{D6}sterreich" || r == "Schweiz" || r == "Italien" || r == "Unbekannt"
  }

  /**
   * `regionMap[plzPrefix] || 'Unbekannt'`. The lookup turns the prefix into a
   * property name: a string is used as it is, a whole number 0 to 9 becomes its
   * digit, and `undefined`, `null`, booleans and other numbers name no entry.
   */
  function RegionName(prefix: Option<Value>): (r: string)
    ensures IsRegionLabel(r)
  {
    match prefix
    case Some(Str(key)) => RegionOfKey(key)
    case Some(Num(x)) =>
      if x.Floor as real == x && 0 <= x.Floor <= 9 then "PLZ " + ['0' + x.Floor as char] else "Unbekannt"
    case _ => "Unbekannt"
  }

  /**
   * A text prefix names a known region exactly when it is a single digit or
   * one of the three country keys, and a digit names "PLZ" and itself.
   */
  lemma RegionNameOfText(key: string)
    ensures RegionName(Some(Str(key))) != "Unbekannt"
      <==> (|key| == 1 && IsDigit(key[0])) || key == "\U{F6}sterreich" || key == "schweiz" || key == "italien"
    ensures |key| == 1 && IsDigit(key[0]) ==> RegionName(Some(Str(key))) == "PLZ " + key
  {
  }

  /** Only a digit prefix, as text or as a whole number, gives a "PLZ" label, and the label carries that digit. */
  lemma {:induction false} PlzLabelFromDigit(prefix: Option<Value>, d: char)
    requires RegionName(prefix) == "PLZ " + [d]
    ensures prefix == Some(Str([d])) || prefix == Some(Num((d as int - '0' as int) as real))
    ensures IsDigit(d)
  {
    var r := RegionName(prefix);
    assert r[4] == d;
    match prefix
    case Some(Str(key)) =>
      if |key| == 1 && IsDigit(key[0]) {
        assert r[4..] == key;
      }
    case Some(Num(x)) =>
    case _ =>
  }

  // ---------------------------------------------------------------------------
  // getIconForStation

  datatype Icon = DefaultIcon | GreifvogelIcon

  /**
   * The marker icon of a station: the raptor icon when the specialization
   * mentions "greifvogel" in any case. `None` where `toLowerCase` is called on
   * a truthy value that is not text and raises.
   */
  function IconForStation(station: Record): (r: Option<Icon>)
    ensures r == Some(GreifvogelIcon) <==>
      "specialization" in station && station["specialization"].Str?
      && Contains(LowerStr(station["specialization"].s), "greifvogel")
    ensures r.None? <==> HasTruthy(station, "specialization") && !station["specialization"].Str?
  {
    if !HasTruthy(station, "specialization") then
      assert "specialization" in station && station["specialization"].Str? ==> station["specialization"].s == "";
      Some(DefaultIcon)
    else
      match station["specialization"]
      case Str(s) => if Contains(LowerStr(s), "greifvogel") then Some(GreifvogelIcon) else Some(DefaultIcon)
      case _ => None
  }

  // ---------------------------------------------------------------------------
  // createPopupContent

  /** JavaScript's `\s`: white space and line terminators. */
  predicate IsJsSpace(c: char)
  {
    || c in {'\t', '\n', '\U{B}', '\U{C}', '\r', ' ', '\U{A0}', '\U{1680}', '\U{2028}', '\U{2029}', '\U{202F}', '\U{205F}', '\U{3000}', '\U{FEFF}'}
    || '\U{2000}' <= c <= '\U{200A}'
  }

  predicate NotJsSpace(c: char) { !IsJsSpace(c) }

  /** `s.replace(/\s/g, '')`: every white-space character removed, the rest kept in order. */
  function WithoutSpaces(s: string): (r: string)
    ensures forall k | 0 <= k < |r| :: !IsJsSpace(r[k])
  {
    Filter(s, NotJsSpace)
  }

  /** Removing white space a second time changes nothing, and text without white space is kept whole. */
  lemma WithoutSpacesFixed(s: string)
    ensures WithoutSpaces(WithoutSpaces(s)) == WithoutSpaces(s)
    ensures (forall k | 0 <= k < |s| :: !IsJsSpace(s[k])) ==> WithoutSpaces(s) == s
  {
    FilterAll(WithoutSpaces(s), NotJsSpace);
    if forall k | 0 <= k < |s| :: !IsJsSpace(s[k]) {
      FilterAll(s, NotJsSpace);
    }
  }

  /**
   * `${value}` in a template literal: text as it is, "undefined", "null",
   * "true" or "false"; numbers are printed by `numberText`.
   */
  function Shown(value: Option<Value>, numberText: real -> string): string
  {
    match value
    case None => "undefined"
    case Some(Null) => "null"
    case Some(Bool(b)) => if b then "true" else "false"
    case Some(Num(x)) => numberText(x)
    case Some(Str(s)) => s
  }

  /** The name heading, after the opening of the popup div. */
  function NameHeading(station: Record, numberText: real -> string): string
  {
    "<h4>" + Shown(Field(station, "name"), numberText) + "</h4>"
  }

  /** The opening of the popup: its div and the name heading. */
  function Heading(station: Record, numberText: real -> string): string
  {
    "<div class=\"popup-content\">" + NameHeading(station, numberText)
  }

  function SpecializationDiv(station: Record, numberText: real -> string): string
  {
    "<div class=\"specialization\">" + Shown(Field(station, "specialization"), numberText) + "</div>"
  }

  function AddressDiv(station: Record, numberText: real -> string): string
  {
    "<div class=\"address\">" + Shown(Field(station, "address"), numberText) + "</div>"
  }

  /** The phone link: the number without white space as the `tel:` target, the number as written as the link text. */
  function PhoneLink(phone: string): string
  {
    "<strong>Tel:</strong> <a href=\"tel:" + WithoutSpaces(phone) + "\">" + phone + "</a><br>"
  }

  function MailLink(email: string): string
  {
    "<strong>E-Mail:</strong> <a href=\"mailto:" + email + "\">" + email + "</a>"
  }

  /** The specialization section, present only for a truthy specialization. */
  function SpecializationPart(station: Record, numberText: real -> string): string
  {
    if HasTruthy(station, "specialization") then SpecializationDiv(station, numberText) else ""
  }

  /** The phone line, present only for a truthy phone given as text. */
  function PhonePart(station: Record): string
  {
    if HasTruthy(station, "phone") && station["phone"].Str? then PhoneLink(station["phone"].s) else ""
  }

  /** The mail line, present only for a truthy email. */
  function MailPart(station: Record, numberText: real -> string): string
  {
    if HasTruthy(station, "email") then MailLink(Shown(Field(station, "email"), numberText)) else ""
  }

  /** The popup's shape: `Layout` of its pieces. */
  function Layout(head: string, spec: string, address: string, phone: string, mail: string): string
  {
    head + spec + address + "<div class=\"contact\">" + phone + mail + "</div>" + "</div>"
  }

  /**
   * `createPopupContent(station)`: the name and the address always, the
   * specialization, phone and email sections only for truthy fields. `None`
   * where a truthy phone is not text and `replace` raises.
   */
  function PopupContent(station: Record, numberText: real -> string): Option<string>
  {
    if HasTruthy(station, "phone") && !station["phone"].Str? then None
    else
      Some(Layout(Heading(station, numberText), SpecializationPart(station, numberText), AddressDiv(station, numberText),
        PhonePart(station), MailPart(station, numberText)))
  }

  /** The popup's text appended piece by piece, as the code does. */
  method CreatePopupContent(station: Record, numberText: real -> string) returns (content: Option<string>)
    ensures content == PopupContent(station, numberText)
  {
    var text := "<div class=\"popup-content\">";
    text := text + NameHeading(station, numberText);
    if HasTruthy(station, "specialization") {
      text := text + SpecializationDiv(station, numberText);
    }
    assert text == Heading(station, numberText) + SpecializationPart(station, numberText);
    text := text + AddressDiv(station, numberText);
    text := text + "<div class=\"contact\">";
    if HasTruthy(station, "phone") {
      if !station["phone"].Str? {
        return None;
      }
      text := text + PhoneLink(station["phone"].s);
    }
    assert text == Heading(station, numberText) + SpecializationPart(station, numberText) + AddressDiv(station, numberText)
      + "<div class=\"contact\">" + PhonePart(station);
    if HasTruthy(station, "email") {
      text := text + MailLink(Shown(Field(station, "email"), numberText));
    }
    assert text == Heading(station, numberText) + SpecializationPart(station, numberText) + AddressDiv(station, numberText)
      + "<div class=\"contact\">" + PhonePart(station) + MailPart(station, numberText);
    text := text + "</div>";
    text := text + "</div>";
    content := Some(text);
  }

  /** The layout opens with its head, ends with two closing divs and holds the address, phone and mail pieces. */
  lemma LayoutParts(head: string, spec: string, address: string, phone: string, mail: string)
    ensures var c := Layout(head, spec, address, phone, mail);
      StartsWith(c, head) && EndsWith(c, "</div></div>")
      && Contains(c, address) && Contains(c, phone) && Contains(c, mail)
  {
    var p1 := head + spec;
    var p2 := p1 + address;
    var p3 := p2 + "<div class=\"contact\">";
    var p4 := p3 + phone;
    var p5 := p4 + mail;
    var p6 := p5 + "</div>";
    var c := p6 + "</div>";
    assert p1[..|head|] == head;
    StartsWithExtend(p1, head, address);
    StartsWithExtend(p2, head, "<div class=\"contact\">");
    StartsWithExtend(p3, head, phone);
    StartsWithExtend(p4, head, mail);
    StartsWithExtend(p5, head, "</div>");
    StartsWithExtend(p6, head, "</div>");
    assert c[|c| - 12..] == "</div></div>";
    ContainsEnd(p1, address);
    ContainsExtend(p2, address, "<div class=\"contact\">");
    ContainsExtend(p3, address, phone);
    ContainsExtend(p4, address, mail);
    ContainsExtend(p5, address, "</div>");
    ContainsExtend(p6, address, "</div>");
    ContainsEnd(p3, phone);
    ContainsExtend(p4, phone, mail);
    ContainsExtend(p5, phone, "</div>");
    ContainsExtend(p6, phone, "</div>");
    ContainsEnd(p4, mail);
    ContainsExtend(p5, mail, "</div>");
    ContainsExtend(p6, mail, "</div>");
  }

  /**
   * The popup fails only on a truthy phone that is not text. Otherwise it
   * opens with the name, holds the address, holds the phone link when there
   * is a phone and the mail link when there is an email, and closes both divs.
   */
  lemma PopupSections(station: Record, numberText: real -> string)
    ensures PopupContent(station, numberText).None? <==> HasTruthy(station, "phone") && !station["phone"].Str?
    ensures PopupContent(station, numberText).Some? ==>
      var c := PopupContent(station, numberText).value;
      && StartsWith(c, Heading(station, numberText))
      && EndsWith(c, "</div></div>")
      && Contains(c, AddressDiv(station, numberText))
      && (HasTruthy(station, "phone") ==> Contains(c, PhoneLink(station["phone"].s)))
      && (HasTruthy(station, "email") ==> Contains(c, MailLink(Shown(Field(station, "email"), numberText))))
    ensures PopupContent(station, numberText).Some? ==>
      PopupContent(station, numberText).value == Layout(Heading(station, numberText), SpecializationPart(station, numberText),
        AddressDiv(station, numberText), PhonePart(station), MailPart(station, numberText))
    ensures SpecializationPart(station, numberText) == "" <==> !HasTruthy(station, "specialization")
    ensures PhonePart(station) == "" <==> !(HasTruthy(station, "phone") && station["phone"].Str?)
    ensures MailPart(station, numberText) == "" <==> !HasTruthy(station, "email")
  {
    if PopupContent(station, numberText).Some? {
      LayoutParts(Heading(station, numberText), SpecializationPart(station, numberText), AddressDiv(station, numberText),
        PhonePart(station), MailPart(station, numberText));
    }
  }

  /**
   * A section appears only for a truthy field: a falsy specialization, phone
   * or email (and any field other than the name and the address) gives the
   * popup the station would have without that field.
   */
  lemma PopupIgnoresFalsy(station: Record, key: string, numberText: real -> string)
    requires key != "name" && key != "address" && !HasTruthy(station, key)
    ensures PopupContent(station, numberText) == PopupContent(station - {key}, numberText)
  {
  }

  /** Without specialization, phone or email the popup is the name, the address and an empty contact section. */
  lemma PopupMinimal(station: Record, numberText: real -> string)
    requires !HasTruthy(station, "specialization") && !HasTruthy(station, "phone") && !HasTruthy(station, "email")
    ensures PopupContent(station, numberText)
      == Some(Heading(station, numberText) + AddressDiv(station, numberText) + "<div class=\"contact\">" + "</div>" + "</div>")
  {
    var head := Heading(station, numberText);
    assert head + SpecializationPart(station, numberText) == head;
    var p := head + AddressDiv(station, numberText) + "<div class=\"contact\">";
    assert p + PhonePart(station) + MailPart(station, numberText) == p;
  }

  // ---------------------------------------------------------------------------
  // updateStats

  /** The region of a station, from its `plz_prefix`. */
  function RegionOf(station: Record): string
  {
    RegionName(Field(station, "plz_prefix"))
  }

  /** A region and its number of stations: one property of the `regions` counter object. */
  type RegionCount = (string, nat)

  /**
   * `regions[region] = (regions[region] || 0) + 1`: the region's count goes
   * up by one; a region seen for the first time is added at the end, as
   * property order follows insertion for these keys.
   */
  function Tally(counts: seq<RegionCount>, region: string): (r: seq<RegionCount>)
    ensures |r| == |counts| || |r| == |counts| + 1
  {
    if counts == [] then [(region, 1)]
    else if counts[0].0 == region then [(region, counts[0].1 + 1)] + counts[1..]
    else [counts[0]] + Tally(counts[1..], region)
  }

  /** The `regions` object after the `forEach` over `stations`. */
  function RegionCounts(stations: seq<Record>): seq<RegionCount>
  {
    if stations == [] then []
    else Tally(RegionCounts(stations[..|stations| - 1]), RegionOf(stations[|stations| - 1]))
  }

  /** The count the counter holds for `region`, 0 when it has none. */
  function CountOf(counts: seq<RegionCount>, region: string): nat
  {
    if counts == [] then 0
    else if counts[0].0 == region then counts[0].1
    else CountOf(counts[1..], region)
  }

  /** The sum of all counts. */
  function Total(counts: seq<RegionCount>): nat
  {
    if counts == [] then 0 else counts[0].1 + Total(counts[1..])
  }

  /** Whether the counter has an entry for `region`. */
  predicate Listed(counts: seq<RegionCount>, region: string)
  {
    counts != [] && (counts[0].0 == region || Listed(counts[1..], region))
  }

  /** Each region occurs once in the counter. */
  predicate DistinctRegions(counts: seq<RegionCount>)
  {
    counts == [] || (!Listed(counts[1..], counts[0].0) && DistinctRegions(counts[1..]))
  }

  /** Every entry of the counter counts at least one station. */
  predicate Positive(counts: seq<RegionCount>)
  {
    forall k | 0 <= k < |counts| :: counts[k].1 > 0
  }

  function InRegion(region: string): Record -> bool
  {
    station => RegionOf(station) == region
  }

  /** One more station: the counts add up to one more. */
  lemma {:induction false} TallyTotal(counts: seq<RegionCount>, region: string)
    ensures Total(Tally(counts, region)) == Total(counts) + 1
  {
    if counts != [] && counts[0].0 != region {
      TallyTotal(counts[1..], region);
    }
  }

  /** The region's count goes up by one, every other count stays. */
  lemma {:induction false} TallyCountOf(counts: seq<RegionCount>, region: string, q: string)
    ensures CountOf(Tally(counts, region), q) == CountOf(counts, q) + (if q == region then 1 else 0)
  {
    if counts != [] && counts[0].0 != region {
      TallyCountOf(counts[1..], region, q);
    }
  }

  /** The counter lists the regions it listed before and the new one. */
  lemma {:induction false} TallyListed(counts: seq<RegionCount>, region: string, q: string)
    ensures Listed(Tally(counts, region), q) <==> q == region || Listed(counts, q)
  {
    if counts != [] && counts[0].0 != region {
      TallyListed(counts[1..], region, q);
    }
  }

  /** Counting a station keeps each region once and every count positive. */
  lemma {:induction false} TallyDistinct(counts: seq<RegionCount>, region: string)
    requires DistinctRegions(counts) && Positive(counts)
    ensures DistinctRegions(Tally(counts, region)) && Positive(Tally(counts, region))
  {
    if counts != [] && counts[0].0 != region {
      TallyDistinct(counts[1..], region);
      TallyListed(counts[1..], region, counts[0].0);
      assert Tally(counts, region)[1..] == Tally(counts[1..], region);
    }
  }

  /** With positive counts, a region is listed exactly when its count is not zero. */
  lemma {:induction false} ListedIffCounted(counts: seq<RegionCount>, q: string)
    requires Positive(counts)
    ensures Listed(counts, q) <==> CountOf(counts, q) > 0
  {
    if counts != [] && counts[0].0 != q {
      ListedIffCounted(counts[1..], q);
    }
  }

  /**
   * The counter holds, for every region, the number of stations in it; it
   * lists exactly the regions some station lies in, each once; and the counts
   * add up to the number of stations.
   */
  lemma {:induction false} RegionCountsSpec(stations: seq<Record>)
    ensures forall region :: CountOf(RegionCounts(stations), region) == Count(stations, InRegion(region))
    ensures forall region :: Listed(RegionCounts(stations), region) <==> Count(stations, InRegion(region)) > 0
    ensures Total(RegionCounts(stations)) == |stations|
    ensures DistinctRegions(RegionCounts(stations)) && Positive(RegionCounts(stations))
  {
    if stations != [] {
      var init := stations[..|stations| - 1];
      var last := RegionOf(stations[|stations| - 1]);
      RegionCountsSpec(init);
      TallyTotal(RegionCounts(init), last);
      TallyDistinct(RegionCounts(init), last);
      forall region
        ensures CountOf(RegionCounts(stations), region) == Count(stations, InRegion(region))
        ensures Listed(RegionCounts(stations), region) <==> Count(stations, InRegion(region)) > 0
      {
        TallyCountOf(RegionCounts(init), last, region);
        ListedIffCounted(RegionCounts(stations), region);
      }
    }
  }

  /** `([, a], [, b]) => b - a`: the larger count first, ties kept in counter order by the stable sort. */
  predicate ByCountDescending(a: RegionCount, b: RegionCount)
  {
    a.1 >= b.1
  }

  /** The first three entries of the counter sorted by count, larger first. */
  function TopRegions(stations: seq<Record>): seq<RegionCount>
  {
    SliceTo(SortBy(RegionCounts(stations), ByCountDescending), 3)
  }

  /** Sorting by count, larger first, is a total preorder. */
  lemma ByCountDescendingPreorder()
    ensures TotalPreorder(ByCountDescending)
  {
    ByIntKeyDescending((e: RegionCount) => e.1);
    assert forall a, b :: ByCountDescending(a, b) == (((e: RegionCount) => e.1)(a) >= ((e: RegionCount) => e.1)(b));
  }

  /**
   * A prefix of a permutation of `counts` sorted by count, larger first, holds
   * only entries of `counts`, and no entry it leaves out has a larger count.
   */
  lemma SortedPrefixTop(counts: seq<RegionCount>, sorted: seq<RegionCount>, n: nat)
    requires multiset(sorted) == multiset(counts) && SortedBy(sorted, ByCountDescending) && n <= |sorted|
    ensures forall e | e in sorted[..n] :: e in counts
    ensures forall e, t | e in counts && e !in sorted[..n] && t in sorted[..n] :: e.1 <= t.1
  {
    var top := sorted[..n];
    forall e | e in top
      ensures e in counts
    {
      assert e in multiset(sorted);
    }
    forall e, t | e in counts && e !in top && t in top
      ensures e.1 <= t.1
    {
      assert e in multiset(counts);
      var i :| 0 <= i < |sorted| && sorted[i] == e;
      var j :| 0 <= j < |top| && top[j] == t;
      assert i >= |top|;
    }
  }

  /**
   * The top regions: as many as there are regions up to three, largest count
   * first, each one a real region with its count, and no region left out has
   * more stations than any region shown.
   */
  lemma TopRegionsSpec(stations: seq<Record>)
    ensures |TopRegions(stations)| == Min(3, |RegionCounts(stations)|)
    ensures forall i, j | 0 <= i < j < |TopRegions(stations)| :: TopRegions(stations)[i].1 >= TopRegions(stations)[j].1
    ensures forall e | e in TopRegions(stations) :: e in RegionCounts(stations)
    ensures forall e, t | e in RegionCounts(stations) && e !in TopRegions(stations) && t in TopRegions(stations) :: e.1 <= t.1
  {
    var counts := RegionCounts(stations);
    var sorted := SortBy(counts, ByCountDescending);
    ByCountDescendingPreorder();
    SortBySorted(counts, ByCountDescending);
    SortedPrefixTop(counts, sorted, |TopRegions(stations)|);
  }

  /** One entry of the statistics line: "region: count". */
  function RegionText(e: RegionCount): string
  {
    e.0 + ": " + NatToString(e.1)
  }

  /** The entries of `top` joined by ", ". */
  function RegionsText(top: seq<RegionCount>): string
  {
    Join(seq(|top|, k requires 0 <= k < |top| => RegionText(top[k])), ", ")
  }

  /** The statistics line: the number of stations, then the top regions after " | " when there are any. */
  function StatsText(stations: seq<Record>): string
  {
    var top := TopRegions(stations);
    NatToString(|stations|) + " Wildvogelhilfen gefunden" + (if top != [] then " | " + RegionsText(top) else "")
  }

  /** The line starts with the number of stations, and it names regions exactly when there are stations. */
  lemma StatsTextSpec(stations: seq<Record>)
    ensures StartsWith(StatsText(stations), NatToString(|stations|) + " Wildvogelhilfen gefunden")
    ensures TopRegions(stations) != [] <==> stations != []
  {
    var head := NatToString(|stations|) + " Wildvogelhilfen gefunden";
    var top := TopRegions(stations);
    assert StatsText(stations)[..|head|] == head;
    RegionCountsSpec(stations);
    if stations != [] {
      assert |RegionCounts(stations)| > 0;
    } else {
      assert RegionCounts(stations) == [];
    }
  }

  /** `WildvogelhilfeMap`: the stations loaded for the page. */
  class WildvogelhilfeMap {
    var stations: seq<Record>

    /** The stations as `loadStations` leaves them (fetched, or the fallback list). */
    constructor(loaded: seq<Record>)
      ensures stations == loaded
    {
      stations := loaded;
    }

    /** `updateStats`: the text written into the statistics element. */
    method UpdateStats() returns (statsText: string)
      ensures statsText == StatsText(stations)
    {
      var totalStations := |stations|;
      var regions: seq<RegionCount> := [];
      for i := 0 to |stations|
        invariant regions == RegionCounts(stations[..i])
      {
        assert stations[..i + 1][..i] == stations[..i];
        regions := Tally(regions, RegionOf(stations[i]));
      }
      assert stations[..|stations|] == stations;
      var sortedRegions := SliceTo(SortBy(regions, ByCountDescending), 3);
      statsText := NatToString(totalStations) + " Wildvogelhilfen gefunden";
      if |sortedRegions| > 0 {
        var regionText := RegionsText(sortedRegions);
        statsText := statsText + " | " + regionText;
      }
    }
  }
}
