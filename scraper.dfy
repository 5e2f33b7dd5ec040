/**
 * The heading-based scraper of the rescue-station directory (`scraper.py`):
 * the region named by a directory page's URL, the walk over the siblings of a
 * station heading, the field rules applied to each text block, the country and
 * the queries handed to the geocoder, the address cleaner, the phone cleaner
 * and the deduplicating save.
 */
module Scraper {
  import opened Common
  import opened Text
  import opened Regex
  import opened Records
  import opened Sorting

  // ---------------------------------------------------------------------------
  // extract_region_from_url

  const GebietMarker: string := "plz-gebiet-"

  /** `s.split(sep)[1]` when `sep` first occurs at `k`: the text up to the next occurrence, or to the end. */
  function SecondPiece(s: string, sep: string, k: nat): (r: string)
    requires OccursAt(s, sep, k)
    ensures k + |sep| + |r| <= |s| && r == s[k + |sep|..k + |sep| + |r|]
    ensures k + |sep| + |r| == |s| || OccursAt(s, sep, k + |sep| + |r|)
    ensures forall m | k + |sep| <= m < k + |sep| + |r| :: !OccursAt(s, sep, m)
  {
    var start := k + |sep|;
    match IndexFrom(s, sep, start)
    case Some(j) => s[start..j]
    case None => s[start..]
  }

  /**
   * `extract_region_from_url`: the text after the first `plz-gebiet-` up to the
   * next `/`; otherwise a country found by substring, else "unbekannt".
   */
  function RegionFromUrl(url: string): string
  {
    match IndexOf(url, GebietMarker)
    case Some(k) => Split(SecondPiece(url, GebietMarker, k), '/')[0]
    case None =>
      if Contains(url, "oesterreich") then "\U{F6}sterreich"
      else if Contains(url, "schweiz") then "schweiz"
      else if Contains(url, "italien") then "italien"
      else "unbekannt"
  }

  /**
   * The region is the text after the first `plz-gebiet-` up to the next `/`
   * (or the next `plz-gebiet-`, or the end); without the marker it is one of
   * the three countries found by substring, Austria first, or "unbekannt"
   * exactly when none of them occurs.
   */
  lemma RegionFromUrlSpec(url: string)
    ensures var r := RegionFromUrl(url);
      Contains(url, GebietMarker) ==>
        var start := IndexOf(url, GebietMarker).value + |GebietMarker|;
        && start + |r| <= |url| && r == url[start..start + |r|] && '/' !in r
        && (start + |r| == |url| || url[start + |r|] == '/' || OccursAt(url, GebietMarker, start + |r|))
    ensures var r := RegionFromUrl(url);
      !Contains(url, GebietMarker) ==>
        && r in {"\U{F6}sterreich", "schweiz", "italien", "unbekannt"}
        && (Contains(url, "oesterreich") ==> r == "\U{F6}sterreich")
        && (r == "unbekannt" <==> !Contains(url, "oesterreich") && !Contains(url, "schweiz") && !Contains(url, "italien"))
  {
    match IndexOf(url, GebietMarker)
    case Some(k) =>
      var piece := SecondPiece(url, GebietMarker, k);
      var r := Split(piece, '/')[0];
      assert r == piece[..|r|];
      assert |r| < |piece| ==> url[k + |GebietMarker| + |r|] == piece[|r|];
    case None =>
  }

  // ---------------------------------------------------------------------------
  // parse_station_block: the sibling walk

  /** A sibling of a station heading: its tag name ("" for bare text), its text and the `href`s of the links in it. */
  datatype Node = Node(name: string, text: string, hrefs: seq<string>)

  /** A text block: a sibling and its stripped text. */
  type Block = (Node, string)

  predicate EndsBlock(n: Node) { n.name == "h3" || n.name == "hr" }

  /** Where the walk stops: at the first h3 or hr, or at the end. */
  function StopAt(siblings: seq<Node>): (n: nat)
    ensures n <= |siblings|
    ensures forall k | 0 <= k < n :: !EndsBlock(siblings[k])
    ensures n < |siblings| ==> EndsBlock(siblings[n])
  {
    if siblings == [] || EndsBlock(siblings[0]) then 0
    else 1 + StopAt(siblings[1..])
  }

  /** A sibling kept as a text block: with its stripped text, when that is longer than two characters. */
  function TextBlockOf(n: Node): (r: Option<(Node, string)>)
    ensures r.Some? ==> r.value.0 == n && |r.value.1| > 2 && r.value.1 == Strip(n.text)
    ensures r.None? <==> |Strip(n.text)| <= 2
  {
    var text := Strip(n.text);
    if |text| > 2 then Some((n, text)) else None
  }

  /** The walk of `parse_station_block` over the heading's following siblings. */
  method CollectTextBlocks(siblings: seq<Node>) returns (blocks: seq<(Node, string)>)
    ensures blocks == Keep(siblings[..StopAt(siblings)], TextBlockOf)
  {
    ghost var stop := StopAt(siblings);
    blocks := [];
    var i := 0;
    while i < |siblings|
      invariant i <= stop
      invariant blocks == Keep(siblings[..i], TextBlockOf)
    {
      var current := siblings[i];
      if current.name == "h3" {
        assert i == stop;
        break;
      } else if current.name == "hr" {
        assert i == stop;
        break;
      } else {
        var text := Strip(current.text);
        KeepPrefix(siblings, i, TextBlockOf);
        assert TextBlockOf(current) == if |text| > 2 then Some((current, text)) else None;
        if text != "" && |text| > 2 {
          blocks := blocks + [(current, text)];
        }
      }
      i := i + 1;
    }
  }

  /** Every text block comes from a sibling before the stop, in order, with more than two characters. */
  lemma TextBlocksFromWalk(siblings: seq<Node>)
    ensures forall b | b in Keep(siblings[..StopAt(siblings)], TextBlockOf) ::
      b.0 in siblings[..StopAt(siblings)] && |b.1| > 2 && b.1 == Strip(b.0.text)
  {
    var f := TextBlockOf;
    KeepSound(siblings[..StopAt(siblings)], f);
  }

  // ---------------------------------------------------------------------------
  // parse_station_block: the field patterns

  /** `[Tt]el` at `i`. */
  predicate TelAt(s: string, i: nat)
  {
    i + 3 <= |s| && (s[i] == 'T' || s[i] == 't') && s[i + 1] == 'e' && s[i + 2] == 'l'
  }

  /** `([0-9\s\-\/\(\)\+]+)` at `e`: the longest run, nothing follows it in the pattern. */
  function PhoneRunAt(s: string, e: nat): (r: Option<string>)
    ensures r.Some? ==> r.value != "" && AllChars(r.value, IsPhoneChar)
  {
    if e <= |s| && Run(s, e, IsPhoneChar) >= 1 then
      var g := s[e..e + Run(s, e, IsPhoneChar)];
      assert forall t | 0 <= t < |g| :: g[t] == s[e + t];
      Some(g)
    else None
  }

  /** `\s*([0-9\s\-\/\(\)\+]+)` from `b`. */
  function PhoneAfterColon(s: string, b: nat): (r: Option<string>)
    ensures r.Some? ==> r.value != "" && AllChars(r.value, IsPhoneChar)
  {
    StarThen(s, b, IsSpace, (e: nat) => PhoneRunAt(s, e))
  }

  /** `:?\s*([0-9\s\-\/\(\)\+]+)` from `a`. */
  function PhoneAfterDot(s: string, a: nat): (r: Option<string>)
    ensures r.Some? ==> r.value != "" && AllChars(r.value, IsPhoneChar)
  {
    OptThen(s, a, ':', (b: nat) => PhoneAfterColon(s, b))
  }

  /** `[Tt]el\.?:?\s*([0-9\s\-\/\(\)\+]+)` tried at `i`. */
  function TelPhoneAt(s: string, i: nat): (r: Option<string>)
    ensures r.Some? ==> TelAt(s, i) && r.value != "" && AllChars(r.value, IsPhoneChar)
  {
    if TelAt(s, i) then OptThen(s, i + 3, '.', (a: nat) => PhoneAfterDot(s, a)) else None
  }

  /** The phone `re.search` finds in a text block, before stripping. */
  function SearchTelPhone(s: string): (r: Option<string>)
    ensures r.Some? ==> r.value != "" && AllChars(r.value, IsPhoneChar)
    ensures r.Some? ==> exists i | 0 <= i <= |s| :: TelAt(s, i)
  {
    var found := Search(|s|, 0, (i: nat) => TelPhoneAt(s, i));
    if found.Some? then Some(found.value.1) else None
  }

  /** `([A-ZÄÖÜa-zäöüß\s\-]+)` at `j`: the longest run of city characters. */
  function CityRunAt(s: string, j: nat): (r: Option<string>)
    ensures r.Some? ==> r.value != "" && AllChars(r.value, IsCityChar)
  {
    if j <= |s| && Run(s, j, IsCityChar) >= 1 then
      var g := s[j..j + Run(s, j, IsCityChar)];
      assert forall t | 0 <= t < |g| :: g[t] == s[j + t];
      Some(g)
    else None
  }

  /** `\s+([city]+)` after a code `s[i..d]`: the code and the city group, the whitespace tried longest first. */
  function CodeCityFrom(s: string, i: nat, d: nat): (r: Option<(string, string)>)
    ensures r.Some? ==> i <= d <= |s| && r.value.0 == s[i..d]
    ensures r.Some? ==> r.value.1 != "" && AllChars(r.value.1, IsCityChar)
  {
    if i <= d <= |s| then
      var ends := Plus(s, d, IsSpace);
      var city := FirstOk(ends, (j: nat) => CityRunAt(s, j));
      assert city.Some? ==> city.value != "" && AllChars(city.value, IsCityChar) by {
        FirstOkHolds(ends, (j: nat) => CityRunAt(s, j), (g: string) => g != "" && AllChars(g, IsCityChar));
      }
      match city
      case Some(c) => Some((s[i..d], c))
      case None => None
    else None
  }

  /** `\b(\d{5})\s+([city]+)` tried at `i`. */
  function FiveDigitCityAt(s: string, i: nat): (r: Option<(string, string)>)
    ensures r.Some? ==> |r.value.0| == 5 && AllDigits(r.value.0) && i + 5 <= |s| && r.value.0 == s[i..i + 5]
    ensures r.Some? ==> r.value.1 != "" && AllChars(r.value.1, IsCityChar)
    ensures r.Some? ==> Boundary(s, i)
  {
    if i + 5 <= |s| && Boundary(s, i) && DigitsAt(s, i, 5) then
      var r := CodeCityFrom(s, i, i + 5);
      assert r.Some? ==> forall t | 0 <= t < 5 :: r.value.0[t] == s[i + t];
      r
    else None
  }

  /** `re.search` of the five-digit pattern: where it starts, the code and the city group. */
  function SearchFiveDigitCity(s: string): (r: Option<(nat, (string, string))>)
    ensures r.Some? ==> r.value.0 + 5 <= |s| && FiveDigitCityAt(s, r.value.0) == Some(r.value.1)
    ensures r.Some? ==> forall i | 0 <= i < r.value.0 :: FiveDigitCityAt(s, i).None?
    ensures r.None? <==> forall i | 0 <= i <= |s| :: FiveDigitCityAt(s, i).None?
  {
    var m := (i: nat) => FiveDigitCityAt(s, i);
    var r := Search(|s|, 0, m);
    assert forall i: nat :: m(i) == FiveDigitCityAt(s, i);
    r
  }

  /** The words that mark the text before the code as contact details rather than a street. */
  const ContactWords: seq<string> := ["tel", "telefon", "fax", "mail"]

  /**
   * The address part of one text block: "before, plz city" stripped of commas
   * and spaces when the text before the code is non-empty and holds no contact
   * word, otherwise "plz city"; none without a code.
   */
  function AddressPart(text: string): (r: Option<string>)
    ensures r.None? <==> SearchFiveDigitCity(text).None?
    ensures r.Some? ==> r.value != ""
    ensures r.Some? ==>
      var (start, (plz, group)) := SearchFiveDigitCity(text).value;
      var before := Strip(text[..start]);
      (before == "" || ContainsAny(LowerStr(before), ContactWords)) ==> r.value == plz + " " + Strip(group)
    ensures r.Some? ==>
      var (start, (plz, group)) := SearchFiveDigitCity(text).value;
      var before := Strip(text[..start]);
      (before != "" && !ContainsAny(LowerStr(before), ContactWords)) ==>
        r.value == StripChars(before + ", " + plz + " " + Strip(group), {',', ' '})
  {
    match SearchFiveDigitCity(text)
    case None => None
    case Some((start, (plz, group))) =>
      var city := Strip(group);
      var before := Strip(text[..start]);
      if before != "" && !ContainsAny(LowerStr(before), ContactWords) then
        StreetAddressNotEmpty(before, plz, city);
        Some(StripChars(before + ", " + plz + " " + city, {',', ' '}))
      else
        Some(plz + " " + city)
  }

  /** A digit survives `.strip(', ')`, so an address with a postcode is never stripped away. */
  lemma StreetAddressNotEmpty(before: string, plz: string, city: string)
    requires plz != "" && IsDigit(plz[0])
    ensures StripChars(before + ", " + plz + " " + city, {',', ' '}) != ""
  {
    var full := before + ", " + plz + " " + city;
    assert full[|before| + 2] == plz[0];
    assert LeadCount(full, c => c in {',', ' '}) <= |before| + 2;
  }

  /** The specialization keywords, looked for in the lower-cased text. */
  const SpecIndicators: seq<string> :=
    ["spezialisiert auf", "alle v\U{F6}gel", "alle wildv\U{F6}gel", "greifv\U{F6}gel", "singv\U{F6}gel",
     "mauersegler", "schwalben", "eulen", "falken", "dohlen"]

  predicate HasIndicator(text: string)
  {
    ContainsAny(LowerStr(text), SpecIndicators)
  }

  /** The day names of the opening-hours pattern. */
  const DayNames: seq<string> := ["montag", "dienstag", "mittwoch", "donnerstag", "freitag", "samstag", "sonntag"]

  /**
   * `\d+\s*[-–]\s*\d+\s*uhr` at `i`. Each repetition is taken longest: a shorter
   * one leaves a digit or a space where the next part cannot start.
   */
  predicate HoursRangeAt(s: string, i: nat)
  {
    i <= |s| && Run(s, i, IsDigit) >= 1 &&
    var a := i + Run(s, i, IsDigit);
    var b := a + Run(s, a, IsSpace);
    b < |s| && (s[b] == '-' || s[b] == '–') &&
    var c := b + 1 + Run(s, b + 1, IsSpace);
    Run(s, c, IsDigit) >= 1 &&
    var d := c + Run(s, c, IsDigit);
    LitAt(s, d + Run(s, d, IsSpace), "uhr")
  }

  /** A text block that gives the opening hours: it matches the pattern and names `erreichbarkeit` or `uhr`. */
  predicate HoursText(text: string)
  {
    var l := LowerStr(text);
    ((exists i | 0 <= i <= |l| :: HoursRangeAt(l, i)) || ContainsAny(l, DayNames))
    && (Contains(l, "erreichbarkeit") || Contains(l, "uhr"))
  }

  predicate IsMailto(href: string) { href != "" && StartsWith(href, "mailto:") }

  predicate IsWebLink(href: string) { href != "" && (StartsWith(href, "http") || StartsWith(href, "www")) }

  /** The e-mail address of a `mailto:` link. */
  function EmailOfLink(href: string): string
  {
    Strip(ReplaceAll(href, "mailto:", ""))
  }

  // ---------------------------------------------------------------------------
  // parse_station_block: the fields over the text blocks

  /** The variables `parse_station_block` fills while it reads the text blocks. */
  datatype Fields = Fields(specialization: string, addressParts: seq<string>, phone: string,
                           email: string, website: string, openingHours: string)

  const NoFields: Fields := Fields("", [], "", "", "", "")

  /**
   * One text block read: its last `mailto:` link sets the e-mail, its last web
   * link the website, a phone match the phone; a code adds an address part;
   * the first block with a keyword sets the specialization; an opening-hours
   * block sets the opening hours.
   */
  function BlockStep(f: Fields, b: Block): Fields
  {
    Fields(NextSpecialization(f.specialization, b.1), NextAddressParts(f.addressParts, b.1),
           NextPhone(f.phone, b.1), NextEmail(f.email, b.0.hrefs), NextWebsite(f.website, b.0.hrefs),
           NextOpeningHours(f.openingHours, b.1))
  }

  function NextSpecialization(specialization: string, text: string): string
  {
    if specialization == "" && HasIndicator(text) then text else specialization
  }

  function NextAddressParts(parts: seq<string>, text: string): seq<string>
  {
    match AddressPart(text) case Some(a) => parts + [a] case None => parts
  }

  function NextPhone(phone: string, text: string): string
  {
    match SearchTelPhone(text) case Some(g) => Strip(g) case None => phone
  }

  function NextEmail(email: string, hrefs: seq<string>): string
  {
    match LastWhere(hrefs, IsMailto) case Some(h) => EmailOfLink(h) case None => email
  }

  function NextWebsite(website: string, hrefs: seq<string>): string
  {
    match LastWhere(hrefs, IsWebLink) case Some(h) => h case None => website
  }

  function NextOpeningHours(hours: string, text: string): string
  {
    if HoursText(text) then text else hours
  }

  /** The fields after reading the blocks in order. */
  function Analyze(blocks: seq<(Node, string)>): Fields
  {
    if blocks == [] then NoFields else BlockStep(Analyze(blocks[..|blocks| - 1]), blocks[|blocks| - 1])
  }

  lemma AllElementsPrefix(blocks: seq<(Node, string)>, i: nat)
    requires i < |blocks| && AllElements(blocks[..i]) && !IsTextNode(blocks[i].0)
    ensures AllElements(blocks[..i + 1])
  {
    assert forall k | 0 <= k < i :: blocks[..i + 1][k] == blocks[..i][k];
  }

  /** Analysing one block more of a prefix. */
  lemma AnalyzePrefix(blocks: seq<(Node, string)>, i: nat)
    requires i < |blocks|
    ensures Analyze(blocks[..i + 1]) == BlockStep(Analyze(blocks[..i]), blocks[i])
  {
    assert blocks[..i + 1][..i] == blocks[..i];
  }

  /** The address part of a block, if it has one. */
  function BlockAddress(b: (Node, string)): Option<string>
  {
    AddressPart(b.1)
  }

  /** Every block with a postcode adds its address part, in block order. */
  lemma {:induction false} AnalyzeAddressParts(blocks: seq<(Node, string)>)
    ensures Analyze(blocks).addressParts == Keep(blocks, BlockAddress)
    ensures forall k | 0 <= k < |Analyze(blocks).addressParts| :: Analyze(blocks).addressParts[k] != ""
  {
    if blocks != [] {
      var init := blocks[..|blocks| - 1];
      var last := blocks[|blocks| - 1];
      AnalyzeAddressParts(init);
      assert Analyze(blocks).addressParts == NextAddressParts(Analyze(init).addressParts, last.1);
      assert Keep(blocks, BlockAddress)
        == Keep(init, BlockAddress) + (match BlockAddress(last) case Some(y) => [y] case None => []);
    }
    var parts := Keep(blocks, BlockAddress);
    KeepSound(blocks, BlockAddress);
    forall k | 0 <= k < |parts| ensures parts[k] != "" {
      assert parts[k] in parts;
    }
  }

  predicate IndicatorBlock(b: (Node, string)) { HasIndicator(b.1) }

  lemma IndicatorTextNotEmpty(text: string)
    requires HasIndicator(text)
    ensures text != ""
  {
    var k :| 0 <= k < |SpecIndicators| && Contains(LowerStr(text), SpecIndicators[k]);
    var at := IndexOf(LowerStr(text), SpecIndicators[k]).value;
    assert SpecIndicators[k] != "";
  }

  /** Only the first block with a keyword sets the specialization. */
  lemma {:induction false} AnalyzeSpecialization(blocks: seq<(Node, string)>)
    ensures Analyze(blocks).specialization ==
      match FirstWhere(blocks, IndicatorBlock) case Some(b) => b.1 case None => ""
  {
    if blocks != [] {
      var init := blocks[..|blocks| - 1];
      var last := blocks[|blocks| - 1];
      AnalyzeSpecialization(init);
      match FirstWhere(init, IndicatorBlock)
      case Some(b) => IndicatorTextNotEmpty(b.1);
      case None =>
    }
  }

  /** The `href`s of all the blocks' links, in document order. */
  function AllHrefs(blocks: seq<(Node, string)>): seq<string>
  {
    if blocks == [] then [] else AllHrefs(blocks[..|blocks| - 1]) + blocks[|blocks| - 1].0.hrefs
  }

  /** The e-mail comes from the last `mailto:` link and the website from the last web link of all the blocks. */
  lemma {:induction false} AnalyzeLinks(blocks: seq<(Node, string)>)
    ensures Analyze(blocks).email == match LastWhere(AllHrefs(blocks), IsMailto) case Some(h) => EmailOfLink(h) case None => ""
    ensures Analyze(blocks).website == match LastWhere(AllHrefs(blocks), IsWebLink) case Some(h) => h case None => ""
  {
    if blocks != [] {
      var init := blocks[..|blocks| - 1];
      var last := blocks[|blocks| - 1];
      AnalyzeLinks(init);
      LastWhereAppend(AllHrefs(init), last.0.hrefs, IsMailto);
      LastWhereAppend(AllHrefs(init), last.0.hrefs, IsWebLink);
    }
  }

  /** The phone found in a block, stripped. */
  function BlockPhone(b: (Node, string)): Option<string>
  {
    match SearchTelPhone(b.1) case Some(g) => Some(Strip(g)) case None => None
  }

  /** The last of `xs`, or `default` when there is none. */
  function LastOr(xs: seq<string>, default: string): string
  {
    if xs == [] then default else xs[|xs| - 1]
  }

  /** The phone comes from the last block with a phone match. */
  lemma {:induction false} AnalyzePhone(blocks: seq<(Node, string)>)
    ensures Analyze(blocks).phone == LastOr(Keep(blocks, BlockPhone), "")
  {
    if blocks != [] {
      var init := blocks[..|blocks| - 1];
      var last := blocks[|blocks| - 1];
      AnalyzePhone(init);
    }
  }

  predicate HoursBlock(b: (Node, string)) { HoursText(b.1) }

  /** The opening hours come from the last opening-hours block. */
  lemma {:induction false} AnalyzeOpeningHours(blocks: seq<(Node, string)>)
    ensures Analyze(blocks).openingHours == match LastOfBlocks(blocks, HoursBlock) case Some(b) => b.1 case None => ""
  {
    if blocks != [] {
      var init := blocks[..|blocks| - 1];
      var last := blocks[|blocks| - 1];
      AnalyzeOpeningHours(init);
    }
  }

  /** The last block that satisfies `p`. */
  function LastOfBlocks(blocks: seq<Block>, p: Block -> bool): (r: Option<Block>)
    ensures r.Some? ==> p(r.value) && r.value in blocks
  {
    if blocks == [] then None
    else if p(blocks[|blocks| - 1]) then Some(blocks[|blocks| - 1])
    else
      var r := LastOfBlocks(blocks[..|blocks| - 1], p);
      assert r.Some? ==> r.value in blocks;
      r
  }

  /** The loop over a block's `mailto:` links: the last one gives the e-mail. */
  method EmailFromLinks(hrefs: seq<string>, email0: string) returns (email: string)
    ensures email == NextEmail(email0, hrefs)
  {
    email := email0;
    var j := 0;
    while j < |hrefs|
      invariant 0 <= j <= |hrefs|
      invariant email == NextEmail(email0, hrefs[..j])
    {
      var href := hrefs[j];
      assert hrefs[..j + 1] == hrefs[..j] + [href];
      LastWhereSnoc(hrefs[..j], href, IsMailto);
      if IsMailto(href) {
        email := EmailOfLink(href);
      }
      j := j + 1;
    }
    assert hrefs[..j] == hrefs;
  }

  /** The loop over a block's web links: the last one gives the website. */
  method WebsiteFromLinks(hrefs: seq<string>, website0: string) returns (website: string)
    ensures website == NextWebsite(website0, hrefs)
  {
    website := website0;
    var j := 0;
    while j < |hrefs|
      invariant 0 <= j <= |hrefs|
      invariant website == NextWebsite(website0, hrefs[..j])
    {
      var href := hrefs[j];
      assert hrefs[..j + 1] == hrefs[..j] + [href];
      LastWhereSnoc(hrefs[..j], href, IsWebLink);
      if IsWebLink(href) {
        website := href;
      }
      j := j + 1;
    }
    assert hrefs[..j] == hrefs;
  }

  /** A bare text node: it has text but no `find_all`. */
  predicate IsTextNode(n: Node) { n.name == "" }

  predicate AllElements(blocks: seq<(Node, string)>)
  {
    forall k | 0 <= k < |blocks| :: !IsTextNode(blocks[k].0)
  }

  /** The body of the analysis loop: one text block read into the fields. */
  method ReadBlock(fields: Fields, element: Node, text: string) returns (next: Fields)
    ensures next == BlockStep(fields, (element, text))
  {
    var specialization, addressParts, phone := fields.specialization, fields.addressParts, fields.phone;
    var email := EmailFromLinks(element.hrefs, fields.email);
    var website := WebsiteFromLinks(element.hrefs, fields.website);
    match SearchTelPhone(text) {
      case Some(g) => phone := Strip(g);
      case None =>
    }
    match AddressPart(text) {
      case Some(a) => addressParts := addressParts + [a];
      case None =>
    }
    if HasIndicator(text) && specialization == "" {
      specialization := text;
    }
    var openingHours := fields.openingHours;
    if HoursText(text) {
      openingHours := text;
    }
    next := Fields(specialization, addressParts, phone, email, website, openingHours);
  }

  /**
   * The analysis loop of `parse_station_block`. Looking for links in a bare
   * text node raises, and the exception handler gives up on the station.
   */
  method AnalyzeBlocks(blocks: seq<Block>) returns (fields: Option<Fields>)
    ensures fields == if AllElements(blocks) then Some(Analyze(blocks)) else None
  {
    var current := NoFields;
    var i := 0;
    while i < |blocks|
      invariant 0 <= i <= |blocks|
      invariant AllElements(blocks[..i])
      invariant current == Analyze(blocks[..i])
    {
      var element, text := blocks[i].0, blocks[i].1;
      if IsTextNode(element) {
        assert !AllElements(blocks);
        return None;
      }
      AllElementsPrefix(blocks, i);
      current := ReadBlock(current, element, text);
      AnalyzePrefix(blocks, i);
      i := i + 1;
    }
    assert blocks[..i] == blocks;
    fields := Some(current);
  }

  // ---------------------------------------------------------------------------
  // clean_address_for_geocoding

  /** `[Tt]el` or `[Ff]ax` at `i`: one of two first letters, then the rest of the word. */
  predicate LabelAt(s: string, i: nat, upper: char, lower: char, rest: string)
  {
    i < |s| && (s[i] == upper || s[i] == lower) && LitAt(s, i + 1, rest)
  }

  /** The end `e` of `.*?(?=\d{5}|$)` if the lookahead holds there. */
  function GapStop(s: string, j: nat, e: nat): (r: Option<nat>)
    ensures r.Some? ==> r.value == e && j <= e <= |s|
  {
    if j <= e <= |s| && (DigitsAt(s, e, 5) || AtEnd(s, e)) then Some(e) else None
  }

  /** `.*?(?=\d{5}|$)` from `j`: the shortest stretch without a newline that five digits or the end follow. */
  function GapEnd(s: string, j: nat): (r: Option<nat>)
    ensures r.Some? ==> j <= r.value <= |s|
  {
    if j <= |s| then FirstOk(Lazy(s, j, NotNewline, 0), (e: nat) => GapStop(s, j, e)) else None
  }

  /** `:?.*?(?=\d{5}|$)` from `a`. */
  function GapAfterDot(s: string, a: nat): (r: Option<nat>)
    ensures r.Some? ==> a <= r.value <= |s|
  {
    if a <= |s| then
      var ends := Opt(s, a, ':');
      var r := FirstOk(ends, (b: nat) => GapEnd(s, b));
      assert r.Some? ==> a <= r.value <= |s| by {
        if r.Some? {
          var k := FirstOkAt(ends, (b: nat) => GapEnd(s, b));
        }
      }
      r
    else None
  }

  /** `[Tt]el\.?:?.*?(?=\d{5}|$)` (or the `Fax` form) tried at `i`: where the match ends. */
  function LabelGapAt(s: string, i: nat, upper: char, lower: char, rest: string): (r: Option<nat>)
    ensures r.Some? ==> LabelAt(s, i, upper, lower, rest)
    ensures r.Some? ==> i + 1 + |rest| <= r.value <= |s|
  {
    if LabelAt(s, i, upper, lower, rest) then
      var a := i + 1 + |rest|;
      var ends := Opt(s, a, '.');
      var r := FirstOk(ends, (b: nat) => GapAfterDot(s, b));
      assert r.Some? ==> a <= r.value <= |s| by {
        if r.Some? {
          var k := FirstOkAt(ends, (b: nat) => GapAfterDot(s, b));
        }
      }
      r
    else None
  }

  /** `[Mm]ail:` at `b`. */
  predicate MailWordAt(s: string, b: nat)
  {
    b < |s| && (s[b] == 'M' || s[b] == 'm') && LitAt(s, b + 1, "ail:")
  }

  /** `[Ee]-?[Mm]ail:` at `i`. */
  predicate MailLabelAt(s: string, i: nat)
  {
    i < |s| && (s[i] == 'E' || s[i] == 'e') && (MailWordAt(s, i + 1) || (i + 1 < |s| && s[i + 1] == '-' && MailWordAt(s, i + 2)))
  }

  /** `[Ee]-?[Mm]ail:.*` with the optional hyphen at `b`: where the match ends. */
  function MailFrom(s: string, b: nat): (r: Option<nat>)
    ensures r.Some? ==> b + 5 <= r.value <= |s|
    ensures r.Some? ==> r.value == |s| || s[r.value] == '\n'
  {
    if MailWordAt(s, b) then
      Some(b + 5 + Run(s, b + 5, NotNewline))
    else None
  }

  /** `MailFrom` as the continuation after the optional hyphen. */
  function MailFromAfter(s: string): nat -> Option<nat>
  {
    (b: nat) => MailFrom(s, b)
  }

  /** What the pattern finds at `i` is a label, and the match ends at a newline or the end. */
  lemma MailTailFacts(s: string, i: nat)
    requires i < |s|
    ensures var r := FirstOk(Opt(s, i + 1, '-'), MailFromAfter(s));
      (s[i] == 'E' || s[i] == 'e') && r.Some? ==>
        MailLabelAt(s, i) && i < r.value <= |s| && (r.value == |s| || s[r.value] == '\n')
  {
    var ends := Opt(s, i + 1, '-');
    if FirstOk(ends, MailFromAfter(s)).Some? {
      var k := FirstOkAt(ends, MailFromAfter(s));
      assert MailFromAfter(s)(ends[k]) == MailFrom(s, ends[k]);
    }
  }

  /** `[Ee]-?[Mm]ail:.*` tried at `i`: the label and the rest of its line. */
  function MailTailAt(s: string, i: nat): (r: Option<nat>)
    ensures r.Some? ==> MailLabelAt(s, i)
    ensures r.Some? ==> i < r.value <= |s|
    ensures r.Some? ==> r.value == |s| || s[r.value] == '\n'
  {
    if i < |s| && (s[i] == 'E' || s[i] == 'e') then
      MailTailFacts(s, i);
      FirstOk(Opt(s, i + 1, '-'), MailFromAfter(s))
    else None
  }

  /** `[Ee]-?[Mm]ail:.*` as a matcher over `s`. */
  function MailTailMatcher(s: string): nat -> Option<nat>
  {
    (i: nat) => MailTailAt(s, i)
  }

  /** Wherever a label stands, the pattern matches. */
  lemma MailLabelMatches(s: string, i: nat)
    requires MailLabelAt(s, i)
    ensures MailTailAt(s, i).Some?
  {
    var ends := Opt(s, i + 1, '-');
    if s[i + 1] == '-' {
      assert MailFromAfter(s)(ends[0]).Some?;
    } else {
      assert MailFromAfter(s)(ends[0]).Some?;
    }
  }

  /** The length of the label at `i`: six characters, seven with the hyphen. */
  function MailLabelLength(s: string, i: nat): nat
  {
    if MailWordAt(s, i + 1) then 6 else 7
  }

  /** A label lies inside `s` and holds no whitespace. */
  lemma MailLabelChars(s: string, i: nat)
    requires MailLabelAt(s, i)
    ensures i + MailLabelLength(s, i) <= |s|
    ensures forall k | i <= k < i + MailLabelLength(s, i) :: !IsSpace(s[k])
  {
    var b := if MailWordAt(s, i + 1) then i + 1 else i + 2;
    var w := s[b + 1..b + 5];
    assert w == "ail:";
    assert w[0] == 'a' && w[1] == 'i' && w[2] == 'l' && w[3] == ':';
    assert s[b + 1] == w[0] && s[b + 2] == w[1] && s[b + 3] == w[2] && s[b + 4] == w[3];
  }

  lemma MailLabelCharAt(s: string, i: nat, p: nat)
    requires MailLabelAt(s, i) && i <= p < i + MailLabelLength(s, i)
    ensures p < |s| && !IsSpace(s[p])
  {
    MailLabelChars(s, i);
  }

  /** A label is found wherever the same characters stand. */
  lemma MailLabelMoves(s: string, i: nat, t: string, j: nat)
    requires MailLabelAt(s, i)
    requires i + MailLabelLength(s, i) <= |s| && j + MailLabelLength(s, i) <= |t|
    requires t[j..j + MailLabelLength(s, i)] == s[i..i + MailLabelLength(s, i)]
    ensures MailLabelAt(t, j)
  {
    var n := MailLabelLength(s, i);
    var d := if n == 6 then 1 else 2;
    assert t[j] == t[j..j + n][0] == s[i];
    assert t[j + 1] == t[j..j + n][1] == s[i + 1];
    assert t[j + d] == t[j..j + n][d] == s[i + d];
    assert t[j + d + 1..j + d + 5] == t[j..j + n][d + 1..d + 5];
    assert s[i + d + 1..i + d + 5] == s[i..i + n][d + 1..d + 5];
  }

  /** No label anywhere in `s`. */
  predicate NoMailLabel(s: string)
  {
    forall k | 0 <= k <= |s| :: !MailLabelAt(s, k)
  }

  /**
   * What the deletion needs of a matcher: it matches wherever a label stands,
   * never at a newline, and each match runs to a newline or the end.
   */
  predicate LineTailMatcher(s: string, m: nat -> Option<nat>)
  {
    && Consuming(s, m)
    && (forall j | 0 <= j < |s| :: MailLabelAt(s, j) ==> m(j).Some?)
    && (forall j | 0 <= j < |s| :: s[j] == '\n' ==> m(j).None?)
    && (forall j | 0 <= j <= |s| :: m(j).Some? ==> m(j).value == |s| || s[m(j).value] == '\n')
  }

  /** `[Ee]-?[Mm]ail:.*` is such a matcher. */
  lemma MailTailMatcherLines(s: string)
    ensures LineTailMatcher(s, MailTailMatcher(s))
  {
    var m := MailTailMatcher(s);
    forall j | 0 <= j < |s| && MailLabelAt(s, j)
      ensures m(j).Some?
    {
      MailLabelMatches(s, j);
    }
  }

  /** A stretch of `s` in which the pattern matches nowhere holds no label. */
  lemma NoMailLabelBetween(s: string, m: nat -> Option<nat>, from: nat, to: nat)
    requires from <= to <= |s| && LineTailMatcher(s, m)
    requires forall j | from <= j < to :: m(j).None?
    ensures NoMailLabel(s[from..to])
  {
    var x := s[from..to];
    forall k | 0 <= k <= |x|
      ensures !MailLabelAt(x, k)
    {
      if MailLabelAt(x, k) {
        MailLabelChars(x, k);
        var n := MailLabelLength(x, k);
        var a, b := x[k..k + n], s[from + k..from + k + n];
        assert forall d | 0 <= d < n :: a[d] == b[d];
        MailLabelMoves(x, k, s, from + k);
        assert false;
      }
    }
  }

  /** A stretch cut out of a string without labels holds none. */
  lemma NoMailLabelSlice(s: string, from: nat, to: nat)
    requires from <= to <= |s| && NoMailLabel(s)
    ensures NoMailLabel(s[from..to])
  {
    var x := s[from..to];
    forall k | 0 <= k <= |x|
      ensures !MailLabelAt(x, k)
    {
      if MailLabelAt(x, k) {
        MailLabelChars(x, k);
        var n := MailLabelLength(x, k);
        var a, b := x[k..k + n], s[from + k..from + k + n];
        assert forall d | 0 <= d < n :: a[d] == b[d];
        MailLabelMoves(x, k, s, from + k);
        assert false;
      }
    }
  }

  /** Joining two strings without labels, the second empty or opening with whitespace, makes none. */
  lemma NoMailLabelAppend(x: string, y: string)
    requires NoMailLabel(x) && NoMailLabel(y)
    requires y == [] || IsSpace(y[0])
    ensures NoMailLabel(x + y)
  {
    var xy := x + y;
    forall k | 0 <= k <= |xy|
      ensures !MailLabelAt(xy, k)
    {
      if MailLabelAt(xy, k) {
        MailLabelChars(xy, k);
        var n := MailLabelLength(xy, k);
        if k + n <= |x| {
          assert x[k..k + n] == xy[k..k + n];
          MailLabelMoves(xy, k, x, k);
          assert false;
        } else if k < |x| {
          MailLabelCharAt(xy, k, |x|);
          assert false;
        } else {
          assert y[k - |x|..k - |x| + n] == xy[k..k + n];
          MailLabelMoves(xy, k, y, k - |x|);
          assert false;
        }
      }
    }
  }

  /**
   * One step of the deletion: the text before a match holds no label, and what
   * is left after the deleted line is empty or opens with its newline, so no
   * label forms across the cut.
   */
  lemma LineTailStep(s: string, m: nat -> Option<nat>, from: nat, i: nat, rest: string)
    requires from <= i < |s| && LineTailMatcher(s, m) && m(i).Some?
    requires forall j | from <= j < i :: m(j).None?
    requires NoMailLabel(rest) && (rest == [] || rest[0] == '\n')
    ensures NoMailLabel(s[from..i] + rest)
    ensures from < |s| && s[from] == '\n' ==> s[from..i] + rest != [] && (s[from..i] + rest)[0] == '\n'
  {
    NoMailLabelBetween(s, m, from, i);
    NoMailLabelAppend(s[from..i], rest);
  }

  /** Deleting each match of a line-tail matcher leaves no label behind. */
  lemma {:induction false} LineTailsGoneFrom(s: string, m: nat -> Option<nat>, from: nat)
    requires from <= |s| && LineTailMatcher(s, m)
    ensures var r := SubFrom(s, from, m, "");
      && NoMailLabel(r)
      && (from == |s| ==> r == [])
      && (from < |s| && s[from] == '\n' ==> r != [] && r[0] == '\n')
    decreases |s| - from
  {
    var r := SubFrom(s, from, m, "");
    match Search(|s|, from, m)
    case None =>
      assert r == s[from..|s|];
      NoMailLabelBetween(s, m, from, |s|);
    case Some((i, e)) =>
      var rest := SubFrom(s, e, m, "");
      assert r == s[from..i] + rest;
      assert i < |s| && (e == |s| || s[e] == '\n');
      assert NoMailLabel(rest) && (rest == [] || rest[0] == '\n') by {
        LineTailsGoneFrom(s, m, e);
      }
      LineTailStep(s, m, from, i, rest);
  }

  /** Deleting each label with the rest of its line leaves no label behind. */
  lemma MailTailsGone(s: string)
    ensures NoMailLabel(DropMailTails(s))
  {
    MailTailMatcherLines(s);
    LineTailsGoneFrom(s, MailTailMatcher(s), 0);
  }

  /** A character put before a string without labels makes a label only where the new string starts. */
  lemma NoMailLabelCons(x: char, t: string)
    requires NoMailLabel(t) && !MailLabelAt([x] + t, 0)
    ensures NoMailLabel([x] + t)
  {
    var c := [x] + t;
    forall k | 0 < k <= |c|
      ensures !MailLabelAt(c, k)
    {
      if MailLabelAt(c, k) {
        MailLabelChars(c, k);
        var n := MailLabelLength(c, k);
        assert t[k - 1..k - 1 + n] == c[k..k + n];
        MailLabelMoves(c, k, t, k - 1);
        assert false;
      }
    }
  }

  /** The collapse of a string without labels does not open with one: its head stands unchanged in `s`. */
  lemma CollapseHeadNoMailLabel(s: string)
    requires NoMailLabel(s)
    ensures !MailLabelAt(CollapseSpaces(s), 0)
  {
    var c := CollapseSpaces(s);
    if MailLabelAt(c, 0) {
      MailLabelChars(c, 0);
      var n := MailLabelLength(c, 0);
      CollapseSpacesHead(s, n);
      MailLabelMoves(c, 0, s, 0);
      assert false;
    }
  }

  /** Collapsing whitespace brings in no label: a label holds no whitespace. */
  lemma {:induction false} CollapseKeepsNoMailLabel(s: string)
    requires NoMailLabel(s)
    ensures NoMailLabel(CollapseSpaces(s))
    decreases |s|
  {
    if s != [] {
      CollapseHeadNoMailLabel(s);
      if IsSpace(s[0]) {
        var t := TrimLeft(s[1..]);
        assert t == s[|s| - |t|..|s|];
        NoMailLabelSlice(s, |s| - |t|, |s|);
        CollapseKeepsNoMailLabel(t);
        NoMailLabelCons(' ', CollapseSpaces(t));
      } else {
        assert s[1..] == s[1..|s|];
        NoMailLabelSlice(s, 1, |s|);
        CollapseKeepsNoMailLabel(s[1..]);
        NoMailLabelCons(s[0], CollapseSpaces(s[1..]));
      }
    }
  }

  /** Normalizing whitespace brings in no label. */
  lemma NormalizeKeepsNoMailLabel(s: string)
    requires NoMailLabel(s)
    ensures NoMailLabel(NormalizeSpaces(s))
  {
    var c := CollapseSpaces(s);
    CollapseKeepsNoMailLabel(s);
    if LeadCount(c, IsSpace) < |c| {
      NoMailLabelSlice(c, LeadCount(c, IsSpace), |c| - TrailCount(c, IsSpace));
    }
  }

  predicate NotBar(c: char) { c != '|' }

  /** The first of several addresses joined by `|`, stripped; a single address unchanged. */
  function FirstAddress(address: string): (r: string)
    ensures '|' !in r
    ensures '|' !in address ==> r == address
  {
    if '|' in address then
      var part := Split(address, '|')[0];
      var r := Strip(part);
      assert AllChars(r, NotBar) by {
        StripByKeeps(part, IsSpace, NotBar);
      }
      r
    else address
  }

  /** Deleting the matches of a consuming pattern never brings in a `|`. */
  lemma DeleteKeepsNoBar(s: string, m: nat -> Option<nat>)
    requires Consuming(s, m) && '|' !in s
    ensures '|' !in Sub(s, m, "")
  {
    SubFromDeletes(s, 0, m, NotBar);
    var r := Sub(s, m, "");
    assert forall k | 0 <= k < |r| :: NotBar(r[k]);
  }

  /** `re.sub(r'[Tt]el\.?:?.*?(?=\d{5}|$)', '', s)` (or the `Fax` form): each label deleted up to the next postcode or the end. */
  function DropLabelGaps(s: string, upper: char, lower: char, rest: string): (r: string)
    ensures '|' !in s ==> '|' !in r
    ensures (forall i | 0 <= i <= |s| :: !LabelAt(s, i, upper, lower, rest)) ==> r == s
    ensures (forall i | 0 <= i <= |s| :: LabelGapAt(s, i, upper, lower, rest).None?) ==> r == s
  {
    var m := (i: nat) => LabelGapAt(s, i, upper, lower, rest);
    assert Consuming(s, m);
    var r := Sub(s, m, "");
    assert '|' !in s ==> '|' !in r by {
      if '|' !in s {
        DeleteKeepsNoBar(s, m);
      }
    }
    r
  }

  /** `re.sub(r'[Ee]-?[Mm]ail:.*', '', s)`: each e-mail label deleted with the rest of its line. */
  function DropMailTails(s: string): (r: string)
    ensures '|' !in s ==> '|' !in r
    ensures (forall i | 0 <= i <= |s| :: !MailLabelAt(s, i)) ==> r == s
  {
    var m := MailTailMatcher(s);
    assert Consuming(s, m);
    var r := Sub(s, m, "");
    assert '|' !in s ==> '|' !in r by {
      if '|' !in s {
        DeleteKeepsNoBar(s, m);
      }
    }
    r
  }

  /** `re.sub(r'\s+', ' ', s).strip()`: single spaces between words, none at the ends. */
  function NormalizeSpaces(s: string): (r: string)
    ensures '|' !in s ==> '|' !in r
    ensures r == Strip(r)
    ensures forall k | 0 <= k < |r| :: IsSpace(r[k]) ==> r[k] == ' '
    ensures forall k | 0 <= k < |r| - 1 :: !(r[k] == ' ' && r[k + 1] == ' ')
  {
    var collapsed := CollapseSpaces(s);
    var r := Strip(collapsed);
    CollapseSpacesShape(s);
    assert '|' !in s ==> '|' !in r by {
      if '|' !in s {
        assert AllChars(s, NotBar);
        CollapseSpacesKeeps(s, NotBar);
        StripByKeeps(collapsed, IsSpace, NotBar);
        assert forall k | 0 <= k < |r| :: NotBar(r[k]);
      }
    }
    StripByIdempotent(collapsed, IsSpace);
    assert forall k | 0 <= k < |r| :: IsSpace(r[k]) ==> r[k] == ' ' by {
      StripByKeeps(collapsed, IsSpace, (c: char) => IsSpace(c) ==> c == ' ');
    }
    StripByNoDoubleSpace(collapsed, IsSpace);
    r
  }

  /**
   * `clean_address_for_geocoding`: the first address only, with phone, fax and
   * e-mail details deleted, whitespace collapsed to single spaces and the ends
   * trimmed.
   */
  function CleanAddressForGeocoding(address: string): (r: string)
    ensures '|' !in r
    ensures r == Strip(r)
    ensures forall k | 0 <= k < |r| :: IsSpace(r[k]) ==> r[k] == ' '
    ensures forall k | 0 <= k < |r| - 1 :: !(r[k] == ' ' && r[k + 1] == ' ')
    ensures '|' !in address && (forall i | 0 <= i <= |address| ::
      !LabelAt(address, i, 'T', 't', "el") && !LabelAt(address, i, 'F', 'f', "ax") && !MailLabelAt(address, i))
      ==> r == Strip(CollapseSpaces(address))
  {
    var first := FirstAddress(address);
    var noTel := DropLabelGaps(first, 'T', 't', "el");
    var noFax := DropLabelGaps(noTel, 'F', 'f', "ax");
    NormalizeSpaces(DropMailTails(noFax))
  }

  /** No `[Ee]-?[Mm]ail:` label is left in a cleaned address. */
  lemma CleanAddressNoMailLabel(address: string)
    ensures NoMailLabel(CleanAddressForGeocoding(address))
  {
    var noFax := DropLabelGaps(DropLabelGaps(FirstAddress(address), 'T', 't', "el"), 'F', 'f', "ax");
    MailTailsGone(noFax);
    NormalizeKeepsNoMailLabel(DropMailTails(noFax));
  }

  /** At the line break after `Tel` neither five digits nor the end follow, so `.*?` finds no stop. */
  lemma TelGapStopsAtLineBreak(s: string)
    requires s == "Tel\n12345 Berlin"
    ensures LabelGapAt(s, 0, 'T', 't', "el").None?
  {
    assert Lazy(s, 3, NotNewline, 0) == [3];
    assert GapStop(s, 3, 3).None?;
    assert GapEnd(s, 3).None?;
    assert Opt(s, 3, ':') == [3];
    assert GapAfterDot(s, 3).None?;
    assert Opt(s, 3, '.') == [3];
  }

  /**
   * The phone pattern keeps a `Tel` label that a line break separates from the
   * next code: `.*?` does not cross the newline, and `$` does not match before
   * it, so the deletion leaves the address as it was.
   */
  lemma TelKeptBeforeLineBreak(s: string)
    requires s == "Tel\n12345 Berlin"
    ensures DropLabelGaps(s, 'T', 't', "el") == s
  {
    TelGapNowhere(s);
  }

  /** The phone pattern matches nowhere in the example. */
  lemma TelGapNowhere(s: string)
    requires s == "Tel\n12345 Berlin"
    ensures forall i | 0 <= i <= |s| :: LabelGapAt(s, i, 'T', 't', "el").None?
  {
    forall i | 0 <= i <= |s|
      ensures LabelGapAt(s, i, 'T', 't', "el").None?
    {
      if i == 0 {
        TelGapStopsAtLineBreak(s);
      } else {
        assert i < |s| ==> s[i] != 'T' && s[i] != 't';
        assert !LabelAt(s, i, 'T', 't', "el");
      }
    }
  }

  /** Only the first of several addresses joined by `|` is cleaned: whatever follows the first bar is ignored. */
  lemma CleanAddressFirstOnly(first: string, others: string)
    requires '|' !in first
    ensures CleanAddressForGeocoding(first + "|" + others) == CleanAddressForGeocoding(Strip(first))
  {
    var address := first + "|" + others;
    var part := Split(address, '|')[0];
    assert address[|first|] == '|';
    assert part == first;
    StripByKeeps(first, IsSpace, NotBar);
    assert '|' !in Strip(first) by {
      assert forall k | 0 <= k < |Strip(first)| :: NotBar(Strip(first)[k]);
    }
  }

  // ---------------------------------------------------------------------------
  // geocode_address

  /** The country named in the geocoder query: by region, Germany otherwise. */
  function CountryForRegion(region: string): (country: string)
    ensures country in {"\U{D6}sterreich", "Schweiz", "Italien", "Deutschland"}
    ensures country == "Deutschland" <==> region !in {"\U{F6}sterreich", "schweiz", "italien"}
    ensures region == "\U{F6}sterreich" ==> country == "\U{D6}sterreich"
    ensures region == "schweiz" ==> country == "Schweiz"
    ensures region == "italien" ==> country == "Italien"
  {
    if region == "\U{F6}sterreich" then "\U{D6}sterreich"
    else if region == "schweiz" then "Schweiz"
    else if region == "italien" then "Italien"
    else "Deutschland"
  }

  /** `CodeCityFrom` after a code starting at `i`, as a matcher over the code's end. */
  function CodeCityAfter(s: string, i: nat): nat -> Option<(string, string)>
  {
    (d: nat) => CodeCityFrom(s, i, d)
  }

  /** `(\d{4,5})\s+([city]+)` tried at `i`: the code and the city group. */
  function ShortCodeCityAt(s: string, i: nat): Option<(string, string)>
  {
    if i <= |s| then FirstOk(Greedy(s, i, IsDigit, 4, 5), CodeCityAfter(s, i)) else None
  }

  /** A code of four or five digits and a non-empty city group. */
  predicate IsShortCodeCity(r: (string, string))
  {
    4 <= |r.0| <= 5 && AllDigits(r.0) && r.1 != "" && AllChars(r.1, IsCityChar)
  }

  /** What `ShortCodeCityAt` finds is a code of four or five digits and a city group. */
  lemma ShortCodeCityShaped(s: string, i: nat)
    requires ShortCodeCityAt(s, i).Some?
    ensures IsShortCodeCity(ShortCodeCityAt(s, i).value)
  {
    var ends := Greedy(s, i, IsDigit, 4, 5);
    var r := FirstOk(ends, CodeCityAfter(s, i));
    assert r == ShortCodeCityAt(s, i);
    var k := FirstOkAt(ends, CodeCityAfter(s, i));
    var d := ends[k];
    assert i + 4 <= d <= i + 5 && AllIn(s, i, d, IsDigit);
    var c := CodeCityFrom(s, i, d);
    assert CodeCityAfter(s, i)(d) == c;
    CodeCityShaped(s, i, d);
  }

  /** A code of four or five digits that `CodeCityFrom` accepts. */
  lemma CodeCityShaped(s: string, i: nat, d: nat)
    requires i + 4 <= d <= i + 5 && d <= |s| && AllIn(s, i, d, IsDigit) && CodeCityFrom(s, i, d).Some?
    ensures IsShortCodeCity(CodeCityFrom(s, i, d).value)
  {
    assert DigitsAt(s, i, d - i);
    DigitsAtSlice(s, i, d - i);
  }

  /** The fallback's `re.search` over the original address. */
  function SearchShortCodeCity(s: string): (r: Option<(string, string)>)
    ensures r.Some? ==> IsShortCodeCity(r.value)
  {
    var m := (i: nat) => ShortCodeCityAt(s, i);
    var found := Search(|s|, 0, m);
    if found.Some? then
      ShortCodeCityShaped(s, found.value.0);
      Some(found.value.1)
    else None
  }

  /** A query: the place, a comma and the country. */
  function WithCountry(place: string, country: string): (q: string)
    ensures q == place + ", " + country
    ensures EndsWith(q, ", " + country)
  {
    EndsWithAppend(place, ", " + country);
    place + ", " + country
  }

  /**
   * The queries `geocode_address` sends, in order: the cleaned address with the
   * country, then, when the address holds a four- or five-digit code and a
   * city, that code and city with the country.
   */
  function GeocodeQueries(address: string, region: string): (qs: seq<string>)
    ensures 1 <= |qs| <= 2
    ensures qs[0] == CleanAddressForGeocoding(address) + ", " + CountryForRegion(region)
    ensures |qs| == 2 <==> SearchShortCodeCity(address).Some?
    ensures |qs| == 2 ==>
      qs[1] == SearchShortCodeCity(address).value.0 + " " + Strip(SearchShortCodeCity(address).value.1) + ", " + CountryForRegion(region)
    ensures forall k | 0 <= k < |qs| :: EndsWith(qs[k], ", " + CountryForRegion(region))
  {
    QueriesFor(CleanAddressForGeocoding(address), SearchShortCodeCity(address), CountryForRegion(region))
  }

  /** The cleaned address with the country, then the code and city found in it, if any, with the country. */
  function QueriesFor(cleaned: string, codeCity: Option<(string, string)>, country: string): (qs: seq<string>)
    ensures 1 <= |qs| <= 2
    ensures qs[0] == cleaned + ", " + country
    ensures |qs| == 2 <==> codeCity.Some?
    ensures |qs| == 2 ==> qs[1] == codeCity.value.0 + " " + Strip(codeCity.value.1) + ", " + country
    ensures forall k | 0 <= k < |qs| :: EndsWith(qs[k], ", " + country)
  {
    var first := WithCountry(cleaned, country);
    if codeCity.Some? then [first, WithCountry(codeCity.value.0 + " " + Strip(codeCity.value.1), country)] else [first]
  }

  /** The answer to the first query the geocoder finds. */
  function FirstAnswer(queries: seq<string>, geocoder: string -> Option<(real, real)>): (r: Option<(real, real)>)
    ensures r.Some? ==> exists k | 0 <= k < |queries| :: geocoder(queries[k]) == r
    ensures r.None? <==> forall k | 0 <= k < |queries| :: geocoder(queries[k]).None?
    ensures queries != [] && geocoder(queries[0]).Some? ==> r == geocoder(queries[0])
  {
    if queries == [] then None
    else if geocoder(queries[0]).Some? then geocoder(queries[0])
    else
      var r := FirstAnswer(queries[1..], geocoder);
      assert forall k | 0 <= k < |queries| - 1 :: queries[1..][k] == queries[k + 1];
      r
  }

  /** `geocode_address(address, region)` with the geocoding service as a function from query to coordinates. */
  function Geocode(address: string, region: string, geocoder: string -> Option<(real, real)>): (r: Option<(real, real)>)
  {
    FirstAnswer(GeocodeQueries(address, region), geocoder)
  }

  /** The coordinates come from the cleaned address when the service knows it, else from the code and city. */
  lemma GeocodeOrder(address: string, region: string, geocoder: string -> Option<(real, real)>)
    ensures var qs := GeocodeQueries(address, region);
      && (geocoder(qs[0]).Some? ==> Geocode(address, region, geocoder) == geocoder(qs[0]))
      && (geocoder(qs[0]).None? && |qs| == 2 ==> Geocode(address, region, geocoder) == geocoder(qs[1]))
      && (geocoder(qs[0]).None? && |qs| == 1 ==> Geocode(address, region, geocoder).None?)
  {
    FirstAnswerOfTwo(GeocodeQueries(address, region), geocoder);
  }

  /** With one or two queries: the first answer if there is one, else the second query's. */
  lemma FirstAnswerOfTwo(qs: seq<string>, geocoder: string -> Option<(real, real)>)
    requires 1 <= |qs| <= 2
    ensures geocoder(qs[0]).Some? ==> FirstAnswer(qs, geocoder) == geocoder(qs[0])
    ensures geocoder(qs[0]).None? && |qs| == 2 ==> FirstAnswer(qs, geocoder) == geocoder(qs[1])
    ensures geocoder(qs[0]).None? && |qs| == 1 ==> FirstAnswer(qs, geocoder).None?
  {
    if geocoder(qs[0]).None? && |qs| == 2 {
      assert qs[1..] == [qs[1]];
      assert qs[1..][1..] == [];
    }
  }

  // ---------------------------------------------------------------------------
  // parse_station_block: the station record

  /** The fields of a scraped station. */
  const StationKeys: set<string> :=
    {"name", "specialization", "address", "phone", "email", "website", "opening_hours", "latitude", "longitude", "plz_prefix"}

  /** A coordinate of a geocoding answer, or `None` without one. */
  function Coordinate(coords: Option<(real, real)>, latitude: bool): (v: Value)
    ensures v.Num? <==> coords.Some?
    ensures v.Null? <==> coords.None?
  {
    match coords
    case Some(c) => Num(if latitude then c.0 else c.1)
    case None => Null
  }

  /** A station as `parse_station_block` returns it: the name, the fields, the address and the region as `plz_prefix`. */
  predicate WellFormedStation(st: Record)
  {
    && st.Keys == StationKeys
    && (forall k | k in st && k != "latitude" && k != "longitude" :: st[k].Str?)
    && (st["latitude"].Num? || st["latitude"].Null?) && (st["latitude"].Num? <==> st["longitude"].Num?)
    && |st["name"].s| >= 3 && st["name"].s == Strip(st["name"].s)
    && st["address"].s != ""
  }

  function StationRecord(name: string, f: Fields, address: string, coords: Option<(real, real)>, region: string): (r: Record)
    ensures r.Keys == StationKeys
    ensures r["name"] == Str(name) && r["address"] == Str(address) && r["plz_prefix"] == Str(region)
    ensures r["latitude"] == Coordinate(coords, true) && r["longitude"] == Coordinate(coords, false)
    ensures forall k | k in r && k != "latitude" && k != "longitude" :: r[k].Str?
    ensures r["specialization"] == Str(f.specialization) && r["phone"] == Str(f.phone)
    ensures r["email"] == Str(f.email) && r["website"] == Str(f.website) && r["opening_hours"] == Str(f.openingHours)
  {
    map["name" := Str(name), "specialization" := Str(f.specialization), "address" := Str(address),
        "phone" := Str(f.phone), "email" := Str(f.email), "website" := Str(f.website),
        "opening_hours" := Str(f.openingHours), "latitude" := Coordinate(coords, true),
        "longitude" := Coordinate(coords, false), "plz_prefix" := Str(region)]
  }

  /** A station heading: its text and the siblings that follow it. */
  datatype Heading = Heading(text: string, siblings: seq<Node>)

  /** The text blocks of a heading. */
  function HeadingBlocks(h: Heading): seq<Block>
  {
    Keep(h.siblings[..StopAt(h.siblings)], TextBlockOf)
  }

  /** `parse_station_block(header, region)` with the geocoding service as a function. */
  function ParsedStation(h: Heading, region: string, geocoder: string -> Option<(real, real)>): (r: Option<Record>)
  {
    var name := Strip(h.text);
    var blocks := HeadingBlocks(h);
    if |name| < 3 || !AllElements(blocks) then None
    else
      var f := Analyze(blocks);
      var address := Join(f.addressParts, " | ");
      if address == "" then None
      else Some(StationRecord(name, f, address, Geocode(address, region, geocoder), region))
  }

  /** Joining non-empty parts gives a non-empty address. */
  lemma JoinNotEmpty(parts: seq<string>, sep: string)
    requires parts != [] && parts[0] != ""
    ensures Join(parts, sep) != ""
  {
  }

  lemma StationRecordWellFormed(name: string, f: Fields, address: string, coords: Option<(real, real)>, region: string)
    requires |name| >= 3 && name == Strip(name) && address != ""
    ensures WellFormedStation(StationRecord(name, f, address, coords, region))
  {
    var r := StationRecord(name, f, address, coords, region);
    assert r["name"].s == name && r["address"].s == address;
  }

  /**
   * A heading gives a station exactly when its name has three characters, no
   * text block is a bare text node and some block holds a postcode.
   */
  lemma ParsedStationWhen(h: Heading, region: string, geocoder: string -> Option<(real, real)>)
    ensures ParsedStation(h, region, geocoder).None? <==>
      |Strip(h.text)| < 3 || !AllElements(HeadingBlocks(h)) || Keep(HeadingBlocks(h), BlockAddress) == []
  {
    var blocks := HeadingBlocks(h);
    AnalyzeAddressParts(blocks);
    var parts := Analyze(blocks).addressParts;
    if parts != [] {
      JoinNotEmpty(parts, " | ");
    }
  }

  /**
   * A station carries the stripped heading as its name, the region, the
   * address parts joined by ` | ` and the geocoding answer for that address,
   * if any.
   */
  lemma ParsedStationFields(h: Heading, region: string, geocoder: string -> Option<(real, real)>)
    ensures var r := ParsedStation(h, region, geocoder);
      r.Some? ==>
        && WellFormedStation(r.value)
        && r.value["name"] == Str(Strip(h.text))
        && r.value["plz_prefix"] == Str(region)
        && r.value["address"] == Str(Join(Keep(HeadingBlocks(h), BlockAddress), " | "))
        && (r.value["latitude"].Num? <==> Geocode(r.value["address"].s, region, geocoder).Some?)
  {
    var r := ParsedStation(h, region, geocoder);
    if r.Some? {
      var blocks := HeadingBlocks(h);
      AnalyzeAddressParts(blocks);
      var f := Analyze(blocks);
      var address := Join(f.addressParts, " | ");
      StripByIdempotent(h.text, IsSpace);
      StationRecordWellFormed(Strip(h.text), f, address, Geocode(address, region, geocoder), region);
    }
  }

  /**
   * The other fields of a station follow the block rules: the specialization
   * is the first block with a keyword, the phone the last phone match, the
   * e-mail the last `mailto:` link, the website the last web link and the
   * opening hours the last opening-hours block.
   */
  lemma ParsedStationContents(h: Heading, region: string, geocoder: string -> Option<(real, real)>)
    ensures var r := ParsedStation(h, region, geocoder); var blocks := HeadingBlocks(h);
      r.Some? ==>
        && r.value["specialization"] == Str(match FirstWhere(blocks, IndicatorBlock) case Some(b) => b.1 case None => "")
        && r.value["phone"] == Str(LastOr(Keep(blocks, BlockPhone), ""))
        && r.value["email"] == Str(match LastWhere(AllHrefs(blocks), IsMailto) case Some(a) => EmailOfLink(a) case None => "")
        && r.value["website"] == Str(match LastWhere(AllHrefs(blocks), IsWebLink) case Some(a) => a case None => "")
        && r.value["opening_hours"] == Str(match LastOfBlocks(blocks, HoursBlock) case Some(b) => b.1 case None => "")
  {
    var blocks := HeadingBlocks(h);
    AnalyzeSpecialization(blocks);
    AnalyzePhone(blocks);
    AnalyzeLinks(blocks);
    AnalyzeOpeningHours(blocks);
  }

  /** `parse_station_block` over the sibling walk and the analysis loop. */
  method ParseStationBlock(h: Heading, region: string, geocoder: string -> Option<(real, real)>)
    returns (station: Option<Record>)
    ensures station == ParsedStation(h, region, geocoder)
  {
    var name := Strip(h.text);
    if |name| < 3 {
      return None;
    }
    var blocks := CollectTextBlocks(h.siblings);
    var fields := AnalyzeBlocks(blocks);
    if fields.None? {
      return None;
    }
    var f := fields.value;
    var address := if f.addressParts != [] then Join(f.addressParts, " | ") else "";
    if address == "" {
      return None;
    }
    var coords := Geocode(address, region, geocoder);
    station := Some(StationRecord(name, f, address, coords, region));
  }

  // ---------------------------------------------------------------------------
  // clean_phone_number

  /** `^[Tt]` and `word`, then `\.?:?\s*` taken greedily: where the label ends. */
  function LeadingLabelEnd(s: string, word: string): (r: Option<nat>)
    ensures r.Some? ==> 1 + |word| <= r.value <= |s|
  {
    if 1 + |word| <= |s| && (s[0] == 'T' || s[0] == 't') && LitAt(s, 1, word) then
      var a := 1 + |word|;
      var b := if a < |s| && s[a] == '.' then a + 1 else a;
      var c := if b < |s| && s[b] == ':' then b + 1 else b;
      Some(c + Run(s, c, IsSpace))
    else None
  }

  /** `re.sub(r'^[Tt]<word>\.?:?\s*', '', s)`. */
  function DropLeadingLabel(s: string, word: string): (r: string)
    ensures |r| <= |s| && r == s[|s| - |r|..]
  {
    match LeadingLabelEnd(s, word)
    case Some(e) => s[e..]
    case None => s
  }

  /** `[Ff]ax` at `i`. */
  predicate FaxAt(s: string, i: nat)
  {
    i + 3 <= |s| && (s[i] == 'F' || s[i] == 'f') && s[i + 1] == 'a' && s[i + 2] == 'x'
  }

  /** `re.split(r'[Ff]ax\.?:?', s)[0]`: everything before the first fax label. */
  function BeforeFax(s: string): (r: string)
    ensures |r| <= |s| && r == s[..|r|]
    ensures (forall i | 0 <= i <= |s| :: !FaxAt(s, i)) ==> r == s
  {
    var m := (i: nat) => if FaxAt(s, i) then Some(i) else None;
    assert forall i: nat :: m(i).Some? <==> FaxAt(s, i);
    SplitHead(s, m)
  }

  predicate NotCloseParen(c: char) { c != ')' }

  /** `\s*\([^)]*\)\s*$` tried at `i`; every repetition is taken longest, as no shorter one can succeed. */
  predicate ParenTailAt(s: string, i: nat)
  {
    i <= |s| &&
    var a := i + Run(s, i, IsSpace);
    a < |s| && s[a] == '(' &&
    var b := a + 1 + Run(s, a + 1, NotCloseParen);
    b < |s| && s[b] == ')' &&
    AtEnd(s, b + 1 + Run(s, b + 1, IsSpace))
  }

  /** `re.sub(r'\s*\([^)]*\)\s*$', '', s)`: a bracketed remark at the end removed with the spaces around it. */
  function DropParenTail(s: string): (r: string)
    ensures |r| <= |s| && r == s[..|r|]
    ensures ('(' !in s) ==> r == s
  {
    var m := (i: nat) => if ParenTailAt(s, i) then Some(i) else None;
    assert '(' !in s ==> forall i | 0 <= i <= |s| :: m(i).None?;
    match Search(|s|, 0, m)
    case Some((i, _)) => s[..i]
    case None => s
  }

  /** `clean_phone_number` as written: the `Tel` label is removed before the `Telefon` label. */
  function CleanPhone(phone: string): (r: string)
    ensures r == Strip(r)
  {
    if phone == "" then ""
    else
      var r := Strip(DropParenTail(BeforeFax(DropLeadingLabel(DropLeadingLabel(phone, "el"), "elefon"))));
      StripByIdempotent(DropParenTail(BeforeFax(DropLeadingLabel(DropLeadingLabel(phone, "el"), "elefon"))), IsSpace);
      r
  }

  /** `clean_phone_number` with the longer label tried first, so that `Telefon:` is removed whole. */
  function CleanPhoneFixed(phone: string): (r: string)
    ensures r == Strip(r)
  {
    if phone == "" then ""
    else
      var r := Strip(DropParenTail(BeforeFax(DropLeadingLabel(DropLeadingLabel(phone, "elefon"), "el"))));
      StripByIdempotent(DropParenTail(BeforeFax(DropLeadingLabel(DropLeadingLabel(phone, "elefon"), "el"))), IsSpace);
      r
  }

  /** Digits carry no fax label, no bracket and no surrounding space, so the last three steps leave them alone. */
  lemma DigitsSurviveTail(prefix: string, d: string)
    requires d != "" && AllDigits(d)
    requires forall k | 0 <= k < |prefix| :: prefix[k] != '(' && prefix[k] != 'F' && (prefix[k] == 'f' ==> k + 1 < |prefix| && prefix[k + 1] != 'a')
    requires prefix == [] || !IsSpace(prefix[0])
    ensures Strip(DropParenTail(BeforeFax(prefix + d))) == prefix + d
  {
    var s := prefix + d;
    forall i | 0 <= i <= |s| ensures !FaxAt(s, i) {
      if i < |s| && (s[i] == 'F' || s[i] == 'f') {
        assert i < |prefix|;
        assert s[i] == prefix[i];
        if i + 1 < |prefix| {
          assert s[i + 1] == prefix[i + 1];
        } else if i + 1 < |s| {
          assert s[i + 1] == d[i + 1 - |prefix|];
        }
      }
    }
    assert '(' !in s by {
      forall k | 0 <= k < |s| ensures s[k] != '(' {
        if k >= |prefix| { assert s[k] == d[k - |prefix|]; }
      }
    }
    assert s[|s| - 1] == d[|d| - 1];
    StripByNothing(s, IsSpace);
  }

  /** As written, `Telefon: <digits>` keeps the tail of its label: the `Tel` label matches first. */
  lemma CleanPhoneTelefonAsWritten(d: string)
    requires d != "" && AllDigits(d)
    ensures CleanPhone("Telefon: " + d) == "efon: " + d
  {
    TelMatchesTelefon(d);
    NoLabelAtE(d);
    DigitsSurviveTail("efon: ", d);
  }

  /** The short label takes only `Tel` off `Telefon: <digits>`. */
  lemma TelMatchesTelefon(d: string)
    ensures DropLeadingLabel("Telefon: " + d, "el") == "efon: " + d
  {
    var s := "Telefon: " + d;
    assert s[1..3] == "el" && s[3] == 'e';
    assert LeadingLabelEnd(s, "el") == Some(3);
    assert s[3..] == "efon: " + d;
  }

  /** A text starting with `e` has no leading label. */
  lemma NoLabelAtE(d: string)
    ensures DropLeadingLabel("efon: " + d, "elefon") == "efon: " + d
  {
    assert ("efon: " + d)[0] == 'e';
  }

  /** With the longer label tried first, `Telefon: <digits>` loses its whole label. */
  lemma CleanPhoneFixedTelefon(d: string)
    requires d != "" && AllDigits(d)
    ensures CleanPhoneFixed("Telefon: " + d) == d
  {
    TelefonMatchesTelefon(d);
    NoLabelAtDigit(d, "el");
    DigitsSurviveTail("", d);
    assert "" + d == d;
  }

  /** The long label takes `Telefon: ` off `Telefon: <digits>`. */
  lemma TelefonMatchesTelefon(d: string)
    requires d != "" && AllDigits(d)
    ensures DropLeadingLabel("Telefon: " + d, "elefon") == d
  {
    var s := "Telefon: " + d;
    assert s[1..7] == "elefon" && s[7] == ':' && s[8] == ' ';
    assert s[9] == d[0];
    assert Run(s, 8, IsSpace) == 1;
    assert LeadingLabelEnd(s, "elefon") == Some(9);
    assert s[9..] == d;
  }

  /** A text starting with a digit has no leading label. */
  lemma NoLabelAtDigit(d: string, word: string)
    requires d != "" && AllDigits(d)
    ensures DropLeadingLabel(d, word) == d
  {
    assert IsDigit(d[0]);
  }

  /** The fix keeps the short label working: `Tel: <digits>` still loses its label. */
  lemma CleanPhoneFixedTel(d: string)
    requires d != "" && AllDigits(d)
    ensures CleanPhoneFixed("Tel: " + d) == d
  {
    ElefonMissesTel(d);
    TelMatchesTel(d);
    DigitsSurviveTail("", d);
    assert "" + d == d;
  }

  /** The long label does not match `Tel: `. */
  lemma ElefonMissesTel(d: string)
    ensures DropLeadingLabel("Tel: " + d, "elefon") == "Tel: " + d
  {
    var t := "Tel: " + d;
    assert LeadingLabelEnd(t, "elefon").None? by { assert t[3] == ':'; }
  }

  /** The short label takes `Tel: ` off `Tel: <digits>`. */
  lemma TelMatchesTel(d: string)
    requires d != "" && AllDigits(d)
    ensures DropLeadingLabel("Tel: " + d, "el") == d
  {
    var t := "Tel: " + d;
    assert t[1..3] == "el" && t[3] == ':' && t[4] == ' ';
    assert t[5] == d[0];
    assert Run(t, 4, IsSpace) == 1;
    assert LeadingLabelEnd(t, "el") == Some(5);
    assert t[5..] == d;
  }

  // ---------------------------------------------------------------------------
  // save_to_json

  /** The text of a string field, or `default` when the field is missing. */
  function TextOr(st: Record, key: string, default: string): string
  {
    if key in st && st[key].Str? then st[key].s else default
  }

  /** The duplicate key: the lower-cased name and the `plz_prefix`. */
  function KeyOf(st: Record): string
  {
    LowerStr(TextOr(st, "name", "")) + "_" + TextOr(st, "plz_prefix", "")
  }

  /** Only stations with a name and an address are saved. */
  predicate Kept(st: Record)
  {
    HasTruthy(st, "name") && HasTruthy(st, "address")
  }

  predicate Located(st: Record)
  {
    HasTruthy(st, "latitude")
  }

  /** The dictionary of unique stations: its keys in insertion order and the station kept under each. */
  datatype Unique = Unique(order: seq<string>, table: map<string, Record>)

  /** One station read: a new key is added at the end; a known key takes the station only if it has coordinates and the kept one has none. */
  function DedupStep(u: Unique, st: Record): Unique
  {
    var key := KeyOf(st);
    if !Kept(st) then u
    else if key !in u.table then Unique(u.order + [key], u.table[key := st])
    else if Located(st) && !Located(u.table[key]) then Unique(u.order, u.table[key := st])
    else u
  }

  /** The unique stations after reading `xs` in order. */
  function Dedup(xs: seq<Record>): (u: Unique)
  {
    if xs == [] then Unique([], map[]) else DedupStep(Dedup(xs[..|xs| - 1]), xs[|xs| - 1])
  }

  /** The dictionary's keys are distinct, in step with its entries, and each entry is a kept station with its own key. */
  ghost predicate UniqueValid(u: Unique)
  {
    && (forall key :: key in u.order <==> key in u.table)
    && (forall i, j | 0 <= i < j < |u.order| :: u.order[i] != u.order[j])
    && (forall key | key in u.table :: KeyOf(u.table[key]) == key && Kept(u.table[key]))
  }

  lemma DedupStepValid(u: Unique, st: Record)
    requires UniqueValid(u)
    ensures UniqueValid(DedupStep(u, st))
  {
  }

  lemma {:induction false} DedupValid(xs: seq<Record>)
    ensures UniqueValid(Dedup(xs))
  {
    if xs != [] {
      DedupValid(xs[..|xs| - 1]);
      DedupStepValid(Dedup(xs[..|xs| - 1]), xs[|xs| - 1]);
    }
  }

  /** The stations the dictionary holds, in key order (`list(unique_stations.values())`). */
  function ValuesOf(order: seq<string>, table: map<string, Record>): (vs: seq<Record>)
    requires forall k | 0 <= k < |order| :: order[k] in table
    ensures |vs| == |order|
    ensures forall k | 0 <= k < |order| :: vs[k] == table[order[k]]
  {
    if order == [] then [] else ValuesOf(order[..|order| - 1], table) + [table[order[|order| - 1]]]
  }

  /** The body of `save_to_json`'s first loop: one station read into the dictionary of unique stations. */
  method AddUnique(order: seq<string>, table: map<string, Record>, station: Record)
    returns (order': seq<string>, table': map<string, Record>)
    ensures Unique(order', table') == DedupStep(Unique(order, table), station)
  {
    order', table' := order, table;
    var key := LowerStr(TextOr(station, "name", "")) + "_" + TextOr(station, "plz_prefix", "");
    if HasTruthy(station, "name") && HasTruthy(station, "address") {
      if key !in table {
        order' := order + [key];
        table' := table[key := station];
      } else if HasTruthy(station, "latitude") && !HasTruthy(table[key], "latitude") {
        table' := table[key := station];
      }
    }
  }

  /** `save_to_json`'s first loop: the dictionary of unique stations, built one station at a time. */
  method DedupStations(stations: seq<Record>) returns (order: seq<string>, table: map<string, Record>)
    ensures Unique(order, table) == Dedup(stations)
  {
    order, table := [], map[];
    for i := 0 to |stations|
      invariant Unique(order, table) == Dedup(stations[..i])
    {
      assert stations[..i + 1][..i] == stations[..i];
      order, table := AddUnique(order, table, stations[i]);
    }
    assert stations[..|stations|] == stations;
  }

  /** `list(unique_stations.values())`: the kept stations in the order their keys were first seen. */
  method ValuesInOrder(order: seq<string>, table: map<string, Record>) returns (valid: seq<Record>)
    requires forall k | 0 <= k < |order| :: order[k] in table
    ensures valid == ValuesOf(order, table)
  {
    valid := [];
    for j := 0 to |order|
      invariant valid == ValuesOf(order[..j], table)
    {
      assert order[..j + 1][..j] == order[..j];
      valid := valid + [table[order[j]]];
    }
    assert order[..|order|] == order;
  }

  /** The sort key: `plz_prefix`, or "0" without one. */
  function PlzKey(st: Record): string
  {
    TextOr(st, "plz_prefix", "0")
  }

  predicate PlzLeq(a: Record, b: Record)
  {
    StrLeq(PlzKey(a), PlzKey(b))
  }

  function UniqueStations(xs: seq<Record>): seq<Record>
  {
    var u := Dedup(xs);
    DedupValid(xs);
    ValuesOf(u.order, u.table)
  }

  /** What `save_to_json` writes: the unique stations, stably sorted by `plz_prefix`. */
  function Saved(xs: seq<Record>): seq<Record>
  {
    SortBy(UniqueStations(xs), PlzLeq)
  }

  /** A kept station with the key `key`, with coordinates when `located` asks for them. */
  predicate Matches(st: Record, key: string, located: bool)
  {
    Kept(st) && KeyOf(st) == key && (located ==> Located(st))
  }

  /** The first station of `xs` that matches. */
  function FirstMatch(xs: seq<Record>, key: string, located: bool): (r: Option<Record>)
    ensures r.Some? ==> r.value in xs && Matches(r.value, key, located)
    ensures r.None? <==> forall k | 0 <= k < |xs| :: !Matches(xs[k], key, located)
  {
    if xs == [] then None
    else
      var r := FirstMatch(xs[..|xs| - 1], key, located);
      if r.Some? then r else if Matches(xs[|xs| - 1], key, located) then Some(xs[|xs| - 1]) else None
  }

  /** The first kept station with the key and coordinates, else the first kept station with the key. */
  function PreferredStation(xs: seq<Record>, key: string): Record
    requires FirstMatch(xs, key, false).Some?
  {
    match FirstMatch(xs, key, true)
    case Some(st) => st
    case None => FirstMatch(xs, key, false).value
  }

  /**
   * A key is in the dictionary exactly when some kept station has it, and the
   * station kept under it is the first one with coordinates, or the first one
   * when none has coordinates.
   */
  lemma {:induction false} DedupPrefers(xs: seq<Record>, key: string)
    ensures key in Dedup(xs).table <==> FirstMatch(xs, key, false).Some?
    ensures key in Dedup(xs).table ==> Dedup(xs).table[key] == PreferredStation(xs, key)
  {
    if xs != [] {
      var init := xs[..|xs| - 1];
      var st := xs[|xs| - 1];
      DedupPrefers(init, key);
      var u := Dedup(init);
      if key in u.table {
        PreferredLocated(init, key);
      }
      if !Kept(st) || KeyOf(st) != key {
        assert key in Dedup(xs).table ==> Dedup(xs).table[key] == u.table[key];
      } else if key !in u.table {
        assert Dedup(xs).table[key] == st;
      } else if Located(st) && !Located(u.table[key]) {
        assert Dedup(xs).table[key] == st;
      } else {
        assert Dedup(xs).table[key] == u.table[key];
      }
    }
  }

  /** The preferred station has coordinates exactly when some station with the key has them. */
  lemma PreferredLocated(xs: seq<Record>, key: string)
    requires FirstMatch(xs, key, false).Some?
    ensures Located(PreferredStation(xs, key)) <==> FirstMatch(xs, key, true).Some?
  {
    if FirstMatch(xs, key, true).None? {
      var first := FirstMatch(xs, key, false).value;
      var k :| 0 <= k < |xs| && xs[k] == first;
      assert !Matches(xs[k], key, true);
    }
  }

  /** Ordering stations by `plz_prefix` is a total preorder. */
  lemma PlzLeqTotal()
    ensures TotalPreorder(PlzLeq)
  {
    forall a: Record, b: Record
      ensures PlzLeq(a, b) || PlzLeq(b, a)
    {
      StrLeqTotal(PlzKey(a), PlzKey(b));
    }
    forall a: Record, b: Record, c: Record | PlzLeq(a, b) && PlzLeq(b, c)
      ensures PlzLeq(a, c)
    {
      StrLeqTrans(PlzKey(a), PlzKey(b), PlzKey(c));
    }
  }

  /** The saved stations are sorted by `plz_prefix` and are the unique stations, rearranged. */
  lemma SavedSorted(xs: seq<Record>)
    ensures SortedBy(Saved(xs), PlzLeq)
    ensures multiset(Saved(xs)) == multiset(UniqueStations(xs))
  {
    PlzLeqTotal();
    SortBySorted(UniqueStations(xs), PlzLeq);
  }

  /** Stations with the same `plz_prefix` keep their first-seen order. */
  lemma SavedStable(xs: seq<Record>, v: Record)
    ensures Filter(Saved(xs), TiedTo(PlzLeq, v)) == Filter(UniqueStations(xs), TiedTo(PlzLeq, v))
  {
    PlzLeqTotal();
    SortByStable(UniqueStations(xs), PlzLeq, v);
  }

  /** The clean-up `save_to_json` evidently intends before writing: empty fields dropped, the phone cleaned. */
  function CleanedForSave(st: Record): (r: Record)
    ensures forall k | k in r && k != "phone" :: k in st && Truthy(st[k]) && r[k] == st[k]
    ensures forall k | k in st && k != "phone" :: k in r <==> Truthy(st[k])
    ensures "phone" in r <==> HasTruthy(st, "phone")
    ensures HasTruthy(st, "phone") && st["phone"].Str? ==> r["phone"] == Str(CleanPhoneFixed(st["phone"].s))
  {
    var kept := DropFalsy(st);
    if HasTruthy(kept, "phone") && kept["phone"].Str? then Set(kept, "phone", Str(CleanPhoneFixed(kept["phone"].s)))
    else kept
  }

  /** The stations as they would be written with that clean-up applied. */
  function SavedCleaned(xs: seq<Record>): (r: seq<Record>)
    ensures |r| == |Saved(xs)|
    ensures forall i | 0 <= i < |r| :: r[i] == CleanedForSave(Saved(xs)[i])
  {
    var saved := Saved(xs);
    seq(|saved|, i requires 0 <= i < |saved| => CleanedForSave(saved[i]))
  }

  /** A directory page: its URL, and its station headings unless the page could not be loaded or has no content. */
  datatype Page = Page(url: string, headings: Option<seq<Heading>>)

  /** `parse_station_block` for one region, as a function of the heading. */
  function Parser(region: string, geocoder: string -> Option<(real, real)>): Heading -> Option<Record>
  {
    h => ParsedStation(h, region, geocoder)
  }

  /** The stations a page adds, in heading order. */
  function AreaStations(headings: Option<seq<Heading>>, region: string, geocoder: string -> Option<(real, real)>): seq<Record>
  {
    match headings
    case Some(hs) => Keep(hs, Parser(region, geocoder))
    case None => []
  }

  /** The stations a page adds, with the region its URL names. */
  function PageStations(page: Page, geocoder: string -> Option<(real, real)>): seq<Record>
  {
    AreaStations(page.headings, RegionFromUrl(page.url), geocoder)
  }

  /** The stations all pages add, in page order. */
  function PagesStations(pages: seq<Page>, geocoder: string -> Option<(real, real)>): seq<Record>
  {
    ConcatMap(pages, p => PageStations(p, geocoder))
  }

  /** A well-formed station of `region`. */
  predicate StationOf(st: Record, region: string)
  {
    WellFormedStation(st) && st["plz_prefix"] == Str(region)
  }

  /** The pages up to and including page `i` add the stations of the pages before it, then those of page `i`. */
  lemma PagesStationsPrefix(pages: seq<Page>, i: nat, geocoder: string -> Option<(real, real)>)
    requires i < |pages|
    ensures PagesStations(pages[..i + 1], geocoder) == PagesStations(pages[..i], geocoder) + PageStations(pages[i], geocoder)
  {
    assert pages[..i + 1][..i] == pages[..i];
  }

  /** Every station of `xs` is well formed and carries `region`. */
  predicate FromRegion(xs: seq<Record>, region: string)
  {
    forall k | 0 <= k < |xs| :: StationOf(xs[k], region)
  }

  /** A station `parse_station_block` returns is well formed and carries the region. */
  lemma ParsedStationFrom(h: Heading, region: string, geocoder: string -> Option<(real, real)>)
    ensures ParsedStation(h, region, geocoder).Some? ==> StationOf(ParsedStation(h, region, geocoder).value, region)
  {
    var r := ParsedStation(h, region, geocoder);
    if r.Some? {
      var blocks := HeadingBlocks(h);
      var f := Analyze(blocks);
      var address := Join(f.addressParts, " | ");
      var coords := Geocode(address, region, geocoder);
      StripByIdempotent(h.text, IsSpace);
      StationRecordWellFormed(Strip(h.text), f, address, coords, region);
      assert r.value == StationRecord(Strip(h.text), f, address, coords, region);
    }
  }

  /** Every station of `xs` is well formed. */
  predicate AllWellFormed(xs: seq<Record>)
  {
    forall k | 0 <= k < |xs| :: WellFormedStation(xs[k])
  }

  /** Appending the stations of one region keeps every station well formed. */
  lemma AppendFromRegion(xs: seq<Record>, ys: seq<Record>, region: string)
    requires AllWellFormed(xs) && FromRegion(ys, region)
    ensures AllWellFormed(xs + ys)
  {
    forall k | 0 <= k < |xs + ys|
      ensures WellFormedStation((xs + ys)[k])
    {
      if k >= |xs| {
        assert StationOf(ys[k - |xs|], region);
      }
    }
  }

  /** Every station a page adds is well formed and carries the page's region. */
  lemma {:induction false} AreaStationsFromRegion(hs: seq<Heading>, region: string, geocoder: string -> Option<(real, real)>)
    ensures FromRegion(Keep(hs, Parser(region, geocoder)), region)
    decreases |hs|
  {
    if hs != [] {
      var init := hs[..|hs| - 1];
      var last := hs[|hs| - 1];
      AreaStationsFromRegion(init, region, geocoder);
      ParsedStationFrom(last, region, geocoder);
      assert Parser(region, geocoder)(last) == ParsedStation(last, region, geocoder);
    }
  }

  /** Appending the stations of a page keeps every station well formed. */
  lemma AppendArea(xs: seq<Record>, headings: Option<seq<Heading>>, region: string, geocoder: string -> Option<(real, real)>)
    requires AllWellFormed(xs)
    ensures AllWellFormed(xs + AreaStations(headings, region, geocoder))
  {
    if headings.Some? {
      AreaStationsFromRegion(headings.value, region, geocoder);
    }
    AppendFromRegion(xs, AreaStations(headings, region, geocoder), region);
  }

  /** The loop of `scrape_plz_area` over a page's headings. */
  method ParseHeadings(hs: seq<Heading>, region: string, geocoder: string -> Option<(real, real)>)
    returns (found: seq<Record>)
    ensures found == Keep(hs, Parser(region, geocoder))
  {
    ghost var f := Parser(region, geocoder);
    found := [];
    var i := 0;
    while i < |hs|
      invariant 0 <= i <= |hs|
      invariant found == Keep(hs[..i], f)
    {
      var station := ParseStationBlock(hs[i], region, geocoder);
      KeepPrefix(hs, i, f);
      assert f(hs[i]) == station;
      if station.Some? {
        found := found + [station.value];
      }
      i := i + 1;
    }
    assert hs[..i] == hs;
  }

  /** The scraper: the stations collected so far. */
  class WildvogelhilfeScraper {
    var stations: seq<Record>

    /** Every collected station is one `parse_station_block` returned. */
    ghost predicate Valid()
      reads this
    {
      AllWellFormed(stations)
    }

    constructor ()
      ensures stations == [] && Valid()
    {
      stations := [];
    }

    /** `scrape_plz_area`: the stations of one page's headings, appended in order. */
    method ScrapePlzArea(headings: Option<seq<Heading>>, region: string, geocoder: string -> Option<(real, real)>)
      requires Valid()
      modifies this
      ensures Valid()
      ensures stations == old(stations) + AreaStations(headings, region, geocoder)
    {
      var found := [];
      if headings.Some? {
        found := ParseHeadings(headings.value, region, geocoder);
      }
      AppendArea(stations, headings, region, geocoder);
      stations := stations + found;
    }

    /** One step of `scrape_all_plz_areas`: the page's region from its URL, then its stations. */
    method ScrapePage(page: Page, geocoder: string -> Option<(real, real)>)
      requires Valid()
      modifies this
      ensures Valid()
      ensures stations == old(stations) + PageStations(page, geocoder)
    {
      var region := RegionFromUrl(page.url);
      ScrapePlzArea(page.headings, region, geocoder);
    }

    /** `scrape_all_plz_areas`: every page in turn, with the region its URL names. */
    method ScrapeAllPlzAreas(pages: seq<Page>, geocoder: string -> Option<(real, real)>)
      requires Valid()
      modifies this
      ensures Valid()
      ensures stations == old(stations) + PagesStations(pages, geocoder)
    {
      ghost var before := stations;
      ghost var f := p => PageStations(p, geocoder);
      assert ConcatMap(pages[..0], f) == [];
      assert before + [] == before;
      var i := 0;
      while i < |pages|
        invariant 0 <= i <= |pages|
        invariant Valid()
        invariant stations == before + ConcatMap(pages[..i], f)
      {
        ghost var done := ConcatMap(pages[..i], f);
        ScrapePage(pages[i], geocoder);
        assert stations == before + done + f(pages[i]);
        ConcatMapPrefix(pages, i, f);
        AppendAssoc(before, done, f(pages[i]));
        i := i + 1;
      }
      assert pages[..i] == pages;
    }

    /**
     * `save_to_json`: what it writes. The clean-up loop only rebinds its loop
     * variable, so the stations are written as they were collected.
     */
    method SaveToJson() returns (saved: seq<Record>)
      requires Valid()
      ensures saved == Saved(stations)
    {
      var order, table := DedupStations(stations);
      DedupValid(stations);
      var valid := ValuesInOrder(order, table);
      valid := SortBy(valid, PlzLeq);
      CleanEach(valid);
      saved := valid;
    }
  }

  /** `save_to_json`'s clean-up loop: each station's copy is cleaned and then dropped, so nothing is written from it. */
  method CleanEach(valid: seq<Record>)
  {
    for j := 0 to |valid| {
      var station := DropFalsy(valid[j]);
      if HasTruthy(station, "phone") && station["phone"].Str? {
        station := Set(station, "phone", Str(CleanPhone(station["phone"].s)));
      }
    }
  }

  /** Saving one station writes it unchanged, so an empty field it has is written too. */
  lemma SavedKeepsEmptyFields(st: Record)
    requires WellFormedStation(st) && st["phone"] == Str("")
    ensures Saved([st]) == [st]
    ensures "phone" in Saved([st])[0] && !Truthy(Saved([st])[0]["phone"])
  {
    WellFormedKept(st);
    DedupSingle(st);
    assert ValuesOf([KeyOf(st)], map[KeyOf(st) := st]) == [st];
    SortBySingle(st, PlzLeq);
  }

  /** A well-formed station has a name and an address, so it is saved. */
  lemma WellFormedKept(st: Record)
    requires WellFormedStation(st)
    ensures Kept(st)
  {
    assert st["name"].s != "";
  }

  /** Reading one kept station gives a dictionary of that station alone. */
  lemma DedupSingle(st: Record)
    requires Kept(st)
    ensures Dedup([st]) == Unique([KeyOf(st)], map[KeyOf(st) := st])
  {
    assert [st][..0] == [];
  }

  /** With the clean-up applied, no field other than the phone is ever empty. */
  lemma SavedCleanedHasNoEmptyFields(xs: seq<Record>)
    ensures forall i, k | 0 <= i < |SavedCleaned(xs)| && k in SavedCleaned(xs)[i] && k != "phone" ::
      Truthy(SavedCleaned(xs)[i][k])
  {
  }
}
