/**
 * simple_scraper.py: cuts a page of h3/p/hr elements into station blocks
 * (`scrape_page`) and reads each block into a station record
 * (`extract_station_info`).
 */
module SimpleScraper {
  import opened Common
  import opened Text
  import opened Regex
  import opened Records

  // ---------------------------------------------------------------------------
  // Page elements

  /** The three tags `content.find_all(['h3', 'p', 'hr'])` returns. */
  datatype Tag = H3 | P | Hr

  /** An element as the parser hands it over: its tag, its text and the `href`s of the links inside it, in order. */
  datatype Element = Element(tag: Tag, text: string, hrefs: seq<string>)

  // ---------------------------------------------------------------------------
  // Segmentation (the state machine of scrape_page)

  /** The number of paragraphs at the head of `es`. */
  function LeadingParagraphs(es: seq<Element>): (n: nat)
    ensures n <= |es|
    ensures forall k | 0 <= k < n :: es[k].tag == P
    ensures n < |es| ==> es[n].tag != P
  {
    if es != [] && es[0].tag == P then 1 + LeadingParagraphs(es[1..]) else 0
  }

  /**
   * The station blocks of a page: every h3 opens a block that takes the
   * paragraphs directly after it; paragraphs outside a block and the hr
   * elements belong to no block.
   */
  function Blocks(es: seq<Element>): (bs: seq<seq<Element>>)
    decreases |es|
  {
    if es == [] then []
    else if es[0].tag == H3 then
      var n := LeadingParagraphs(es[1..]);
      [es[..1 + n]] + Blocks(es[1 + n..])
    else Blocks(es[1..])
  }

  /** A block: its h3 first, then only paragraphs. */
  predicate IsBlock(b: seq<Element>)
  {
    |b| >= 1 && b[0].tag == H3 && forall k | 1 <= k < |b| :: b[k].tag == P
  }

  predicate IsH3(e: Element) { e.tag == H3 }

  /** The paragraphs after an h3 hold no h3: the rest of the page has all of its h3 elements. */
  lemma ParagraphsHaveNoH3(es: seq<Element>)
    ensures Count(es, IsH3) == Count(es[LeadingParagraphs(es)..], IsH3)
  {
    var n := LeadingParagraphs(es);
    var ps := es[..n];
    assert forall k | 0 <= k < |ps| :: ps[k].tag == P;
    assert es == ps + es[n..];
    CountAppend(ps, es[n..], IsH3);
  }

  /** Every block starts with its h3 and holds only paragraphs after it. */
  lemma {:induction false} BlocksAreBlocks(es: seq<Element>)
    ensures forall k | 0 <= k < |Blocks(es)| :: IsBlock(Blocks(es)[k])
    decreases |es|
  {
    if es != [] {
      if es[0].tag == H3 {
        var n := LeadingParagraphs(es[1..]);
        var b := es[..1 + n];
        BlocksAreBlocks(es[1 + n..]);
        assert IsBlock(b) by {
          forall k | 1 <= k < |b| ensures b[k].tag == P {
            assert b[k] == es[1..][k - 1];
          }
        }
        assert Blocks(es) == [b] + Blocks(es[1 + n..]);
      } else {
        BlocksAreBlocks(es[1..]);
      }
    }
  }

  /** There is exactly one block per h3 of the page. */
  lemma {:induction false} BlocksCount(es: seq<Element>)
    ensures |Blocks(es)| == Count(es, IsH3)
    decreases |es|
  {
    if es != [] {
      if es[0].tag == H3 {
        var n := LeadingParagraphs(es[1..]);
        BlocksCount(es[1 + n..]);
        BlocksCountAtH3(es, n);
      } else {
        assert es == [es[0]] + es[1..];
        CountCons(es[0], es[1..], IsH3);
        BlocksCount(es[1..]);
      }
    }
  }

  /** The step of `BlocksCount` at an h3: one block, and no further h3 among its paragraphs. */
  lemma BlocksCountAtH3(es: seq<Element>, n: nat)
    requires es != [] && es[0].tag == H3 && n == LeadingParagraphs(es[1..])
    requires |Blocks(es[1 + n..])| == Count(es[1 + n..], IsH3)
    ensures |Blocks(es)| == Count(es, IsH3)
  {
    CountAtH3(es, n);
    assert |Blocks(es)| == 1 + |Blocks(es[1 + n..])|;
  }

  /** An h3 and its paragraphs hold exactly one h3. */
  lemma CountAtH3(es: seq<Element>, n: nat)
    requires es != [] && es[0].tag == H3 && n == LeadingParagraphs(es[1..])
    ensures Count(es, IsH3) == 1 + Count(es[1 + n..], IsH3)
  {
    var rest := es[1..];
    assert es == [es[0]] + rest;
    CountCons(es[0], rest, IsH3);
    ParagraphsHaveNoH3(rest);
    assert rest[n..] == es[1 + n..];
  }

  /**
   * Every block starts with its h3 and holds only paragraphs after it, and
   * there is exactly one block per h3 of the page.
   */
  lemma BlocksShape(es: seq<Element>)
    ensures forall k | 0 <= k < |Blocks(es)| :: IsBlock(Blocks(es)[k])
    ensures |Blocks(es)| == Count(es, IsH3)
  {
    BlocksAreBlocks(es);
    BlocksCount(es);
  }

  /** Elements before the first h3 are discarded: they open no block and join none. */
  lemma {:induction false} LeadingElementsDiscarded(pre: seq<Element>, es: seq<Element>)
    requires forall k | 0 <= k < |pre| :: pre[k].tag != H3
    ensures Blocks(pre + es) == Blocks(es)
    decreases |pre|
  {
    if pre == [] {
      assert pre + es == es;
    } else {
      assert (pre + es)[0] == pre[0];
      assert (pre + es)[1..] == pre[1..] + es;
      LeadingElementsDiscarded(pre[1..], es);
      assert Blocks(pre + es) == Blocks(pre[1..] + es);
    }
  }

  /** A run of paragraphs is unaffected by what follows it when that starts with something else. */
  lemma {:induction false} LeadingParagraphsAppend(a: seq<Element>, b: seq<Element>)
    requires b == [] || b[0].tag != P
    ensures LeadingParagraphs(a + b) == LeadingParagraphs(a)
    decreases |a|
  {
    if a != [] {
      assert (a + b)[1..] == a[1..] + b;
      if a[0].tag == P {
        LeadingParagraphsAppend(a[1..], b);
      }
    }
  }

  /** At an h3 of `a`, the first block of `a + b` is the block `a` opens, when its paragraphs end inside `a`. */
  lemma BlocksJoinedAtH3(a: seq<Element>, b: seq<Element>, n: nat)
    requires a != [] && a[0].tag == H3 && 1 + n <= |a|
    requires LeadingParagraphs(a[1..] + b) == n
    ensures Blocks(a + b) == [a[..1 + n]] + Blocks(a[1 + n..] + b)
  {
    var ab := a + b;
    assert ab[1..] == a[1..] + b;
    assert ab[..1 + n] == a[..1 + n];
    assert ab[1 + n..] == a[1 + n..] + b;
  }

  /**
   * A page cut where an h3 or hr follows: the blocks of the whole page are
   * the blocks of the two parts, one after the other.
   */
  lemma {:induction false} BlocksAppend(a: seq<Element>, b: seq<Element>)
    requires b == [] || b[0].tag != P
    ensures Blocks(a + b) == Blocks(a) + Blocks(b)
    decreases |a|
  {
    if a == [] {
      assert a + b == b;
    } else if a[0].tag == H3 {
      LeadingParagraphsAppend(a[1..], b);
      var n := LeadingParagraphs(a[1..]);
      BlocksAppend(a[1 + n..], b);
      BlocksJoinedAtH3(a, b, n);
      AppendAssoc([a[..1 + n]], Blocks(a[1 + n..]), Blocks(b));
    } else {
      assert (a + b)[0] == a[0];
      assert (a + b)[1..] == a[1..] + b;
      BlocksAppend(a[1..], b);
    }
  }

  // ---------------------------------------------------------------------------
  // extract_station_info: the patterns

  /** `([A-ZÄÖÜa-zäöüß][A-ZÄÖÜa-zäöüß\s\-]*)` at `j`: nothing follows the group, so the greedy run's first try succeeds. */
  function CityGroupAt(s: string, j: nat): (r: Option<string>)
    ensures r.Some? ==> r.value != "" && IsGermanLetter(r.value[0]) && AllChars(r.value, IsCityChar)
  {
    if j < |s| && IsGermanLetter(s[j]) then
      var e := j + 1 + Run(s, j + 1, IsCityChar);
      assert AllChars(s[j..e], IsCityChar) by {
        forall t | 0 <= t < e - j ensures IsCityChar(s[j..e][t]) {
          assert s[j..e][t] == s[j + t];
        }
      }
      Some(s[j..e])
    else None
  }

  /** What the city group captures: a letter, then letters, whitespace and hyphens. */
  predicate IsCityGroup(g: string)
  {
    g != "" && IsGermanLetter(g[0]) && AllChars(g, IsCityChar)
  }

  /** `\s+` from `d` and then the city group: the run of whitespace is tried longest first. */
  function CityAfterSpaces(s: string, d: nat): (r: Option<string>)
    ensures r.Some? ==> r.value != "" && IsGermanLetter(r.value[0]) && AllChars(r.value, IsCityChar)
    ensures d <= |s| && r.None? ==>
      forall k | 0 <= k < |Plus(s, d, IsSpace)| :: CityGroupAt(s, Plus(s, d, IsSpace)[k]).None?
  {
    if d <= |s| then
      var ends := Plus(s, d, IsSpace);
      FirstOkHolds(ends, (j: nat) => CityGroupAt(s, j), IsCityGroup);
      FirstOk(ends, (j: nat) => CityGroupAt(s, j))
    else None
  }

  /** The code `s[i..d]` if the city group follows it after whitespace. */
  function PlzCityFrom(s: string, i: nat, d: nat): (r: Option<(string, string)>)
    ensures r.Some? ==> i <= d <= |s| && r.value.0 == s[i..d]
    ensures r.Some? ==> r.value.1 != "" && IsGermanLetter(r.value.1[0]) && AllChars(r.value.1, IsCityChar)
  {
    if i <= d <= |s| then
      match CityAfterSpaces(s, d)
      case Some(city) => Some((s[i..d], city))
      case None => None
    else None
  }

  /** The code ending at `d`, then the city: the continuation of the code's greedy run. */
  function CodeThenCity(s: string, i: nat): nat -> Option<(string, string)>
  {
    (d: nat) => PlzCityFrom(s, i, d)
  }

  /** `(\d{4,5})\s+([city])` tried at `i`: the code and the city group. */
  function PlzCityAt(s: string, i: nat): Option<(string, string)>
  {
    if i <= |s| then FirstOk(Greedy(s, i, IsDigit, 4, 5), CodeThenCity(s, i)) else None
  }

  /** A code of four or five digits, and a city group that starts with a letter. */
  predicate IsPlzCity(r: (string, string))
  {
    && 4 <= |r.0| <= 5 && AllDigits(r.0)
    && r.1 != "" && IsGermanLetter(r.1[0]) && AllChars(r.1, IsCityChar)
  }

  /** What `PlzCityAt` finds is a code of four or five digits and a city group. */
  lemma PlzCityShaped(s: string, i: nat)
    requires PlzCityAt(s, i).Some?
    ensures IsPlzCity(PlzCityAt(s, i).value)
  {
    var ends := Greedy(s, i, IsDigit, 4, 5);
    var r := FirstOk(ends, CodeThenCity(s, i));
    assert r == PlzCityAt(s, i);
    var k := FirstOkAt(ends, CodeThenCity(s, i));
    var d := ends[k];
    assert i + 4 <= d <= i + 5 && AllIn(s, i, d, IsDigit);
    assert CodeThenCity(s, i)(d) == PlzCityFrom(s, i, d);
    PlzCityFromShaped(s, i, d);
  }

  /** A code of four or five digits that `PlzCityFrom` accepts. */
  lemma PlzCityFromShaped(s: string, i: nat, d: nat)
    requires i + 4 <= d <= i + 5 && d <= |s| && AllIn(s, i, d, IsDigit) && PlzCityFrom(s, i, d).Some?
    ensures IsPlzCity(PlzCityFrom(s, i, d).value)
  {
    assert DigitsAt(s, i, d - i);
    DigitsAtSlice(s, i, d - i);
  }

  /** `re.search` of the code-and-city pattern: where it starts, the code and the city group. */
  function SearchPlzCity(s: string): (r: Option<(nat, string, string)>)
    ensures r.Some? ==> r.value.0 <= |s| && PlzCityAt(s, r.value.0) == Some((r.value.1, r.value.2))
    ensures r.Some? ==> IsPlzCity((r.value.1, r.value.2))
  {
    match Search(|s|, 0, (i: nat) => PlzCityAt(s, i))
    case None => None
    case Some((i, found)) =>
      PlzCityShaped(s, i);
      Some((i, found.0, found.1))
  }

  /** Five digits, one whitespace character and a letter: the pattern matches at the first digit. */
  lemma PlzCityFound(s: string, i: nat)
    requires i + 7 <= |s|
    requires forall k | i <= k < i + 5 :: IsDigit(s[k])
    requires IsSpace(s[i + 5]) && IsGermanLetter(s[i + 6])
    ensures PlzCityAt(s, i).Some?
  {
    RunCovers(s, i, i + 5, IsDigit);
    var ends := Greedy(s, i, IsDigit, 4, 5);
    assert ends[0] == i + 5;
    RunCovers(s, i + 5, i + 6, IsSpace);
    assert !IsSpace(s[i + 6]);
    assert Run(s, i + 5, IsSpace) == 1;
    assert CityGroupAt(s, Plus(s, i + 5, IsSpace)[0]).Some?;
    assert PlzCityFrom(s, i, ends[0]).Some?;
  }

  /** The search finds a match whenever the pattern matches at some position. */
  lemma SearchPlzCityFinds(s: string, i: nat)
    requires i <= |s| && PlzCityAt(s, i).Some?
    ensures SearchPlzCity(s).Some?
  {
    var m := (j: nat) => PlzCityAt(s, j);
    assert m(i).Some?;
  }

  /** The class `[A-ZÄÖÜa-zäöüß\s\-\.]` of the street pattern. */
  predicate IsStreetChar(c: char)
  {
    IsGermanLetter(c) || IsSpace(c) || c == '-' || c == '.'
  }

  /** `\s*$` from `c`. */
  function SpacesToEnd(s: string, c: nat): (r: Option<nat>)
    ensures r.Some? ==> c <= |s| && forall k | c <= k < |s| :: IsSpace(s[k])
  {
    var r := StarThen(s, c, IsSpace, AtEndMatcher(s));
    assert r.Some? ==> c <= |s| && forall k | c <= k < |s| :: IsSpace(s[k]) by {
      if r.Some? {
        var e := StarThenAt(s, c, IsSpace, AtEndMatcher(s));
        assert e == |s|;
      }
    }
    r
  }

  /** `$`: matches only at the end. */
  function AtEndMatcher(s: string): nat -> Option<nat>
  {
    (t: nat) => if AtEnd(s, t) then Some(t) else None
  }

  /** `[a-z]?\s*$` from `d`: where the optional letter ends, the rest being whitespace. The letter is tried first. */
  function HouseLetterFrom(s: string, d: nat): (r: Option<nat>)
    ensures r.Some? ==> r.value == d || (r.value == d + 1 && d < |s| && IsAsciiLower(s[d]))
    ensures r.Some? ==> r.value <= |s| && forall k | r.value <= k < |s| :: IsSpace(s[k])
  {
    if d < |s| && IsAsciiLower(s[d]) && SpacesToEnd(s, d + 1).Some? then Some(d + 1)
    else if d <= |s| && SpacesToEnd(s, d).Some? then Some(d)
    else None
  }

  /** `s[from..e]` ends in a digit, or in one lower-case letter right after a digit. */
  predicate EndsInHouseNumber(s: string, from: nat, e: nat)
  {
    from < e <= |s| && (IsDigit(s[e - 1]) || (from + 2 <= e && IsAsciiLower(s[e - 1]) && IsDigit(s[e - 2])))
  }

  /**
   * `\d+[a-z]?\s*$` from `a`: where the group ends (after the optional letter).
   * Only the longest digit run is tried: a shorter one is followed by a digit,
   * which neither the letter, the blanks nor the end accept
   * (`HouseLetterNotAtDigit`).
   */
  function HouseNumberFrom(s: string, a: nat): Option<nat>
  {
    if a <= |s| then
      var d := a + Run(s, a, IsDigit);
      if a < d then HouseLetterFrom(s, d) else None
    else None
  }

  /** At a digit the optional letter and the blanks to the end cannot match, so backtracking into the digits finds nothing. */
  lemma HouseLetterNotAtDigit(s: string, d: nat)
    requires d < |s| && IsDigit(s[d])
    ensures HouseLetterFrom(s, d).None?
  {
  }

  /** The street group `s[i..e]` ends in a house number with only whitespace after it. */
  predicate StreetEnds(s: string, i: nat, e: nat)
  {
    EndsInHouseNumber(s, i, e) && e <= |s| && forall k | e <= k < |s| :: IsSpace(s[k])
  }

  /** `HouseNumberFrom` as the continuation of the street characters. */
  function HouseNumberMatcher(s: string): nat -> Option<nat>
  {
    (a: nat) => HouseNumberFrom(s, a)
  }

  /** A house number found after the street's first letter ends the street group. */
  lemma HouseNumberEndsStreet(s: string, i: nat, a: nat)
    requires i < a && HouseNumberFrom(s, a).Some?
    ensures StreetEnds(s, i, HouseNumberFrom(s, a).value)
  {
    var d, e := HouseNumberParts(s, a);
    DigitsThenLetterEndStreet(s, i, a, d, e);
  }

  /**
   * A house number is a non-empty run of digits `s[a..d]`, then an optional
   * lower-case letter up to `e`, then only whitespace.
   */
  lemma HouseNumberParts(s: string, a: nat) returns (d: nat, e: nat)
    requires HouseNumberFrom(s, a).Some?
    ensures a < d <= |s| && IsDigit(s[d - 1]) && HouseNumberFrom(s, a) == Some(e)
    ensures HouseLetterFrom(s, d) == Some(e)
  {
    HouseNumberNeedsDigits(s, a);
    d := a + Run(s, a, IsDigit);
    e := HouseNumberFrom(s, a).value;
  }

  /** A house number starts with a digit. */
  lemma HouseNumberNeedsDigits(s: string, a: nat)
    requires HouseNumberFrom(s, a).Some?
    ensures a <= |s| && Run(s, a, IsDigit) > 0
  {
  }

  /** Digits `s[a..d]`, an optional lower-case letter up to `e` and only whitespace after it end a street group. */
  lemma DigitsThenLetterEndStreet(s: string, i: nat, a: nat, d: nat, e: nat)
    requires i < a < d <= |s| && IsDigit(s[d - 1])
    requires e == d || (e == d + 1 && d < |s| && IsAsciiLower(s[d]))
    requires e <= |s| && forall k | e <= k < |s| :: IsSpace(s[k])
    ensures StreetEnds(s, i, e)
  {
  }

  /** `([letter][street class]*\d+[a-z]?)\s*$` tried at `i`: where the street group ends. */
  function StreetAt(s: string, i: nat): Option<nat>
  {
    if i < |s| && IsGermanLetter(s[i]) then StarThen(s, i + 1, IsStreetChar, HouseNumberMatcher(s)) else None
  }

  /** A street group starts with a letter and ends in a house number with only whitespace after it. */
  lemma StreetAtEnds(s: string, i: nat)
    ensures StreetAt(s, i).Some? ==> i < |s| && IsGermanLetter(s[i]) && StreetEnds(s, i, StreetAt(s, i).value)
  {
    if StreetAt(s, i).Some? {
      var a := StarThenAt(s, i + 1, IsStreetChar, HouseNumberMatcher(s));
      assert HouseNumberMatcher(s)(a) == HouseNumberFrom(s, a);
      HouseNumberEndsStreet(s, i, a);
    }
  }

  /** The street matcher at every start of `s`. */
  function StreetMatcher(s: string): nat -> Option<nat>
  {
    (i: nat) => StreetAt(s, i)
  }

  /**
   * `re.search` of the street pattern in the text before the code: the
   * leftmost letter-initial group `s[i..e]` that ends in a house number with
   * only whitespace after it.
   */
  function SearchStreet(s: string): (r: Option<(nat, nat)>)
    ensures r.Some? ==> r.value.0 < |s| && IsGermanLetter(s[r.value.0]) && EndsInHouseNumber(s, r.value.0, r.value.1)
    ensures r.Some? ==> forall k | r.value.1 <= k < |s| :: IsSpace(s[k])
  {
    match Search(|s|, 0, StreetMatcher(s))
    case None => None
    case Some((i, e)) =>
      StreetAtEnds(s, i);
      Some((i, e))
  }

  /** `([phone class]{8,})` at `e`: nothing follows the group, so the longest run is taken if it is long enough. */
  function PhoneGroupAt(s: string, e: nat): (r: Option<string>)
    ensures r.Some? ==> |r.value| >= 8 && AllChars(r.value, IsPhoneChar)
  {
    if e <= |s| && Run(s, e, IsPhoneChar) >= 8 then
      var g := s[e..e + Run(s, e, IsPhoneChar)];
      assert forall t | 0 <= t < |g| :: g[t] == s[e + t];
      Some(g)
    else None
  }

  /** What the phone group captures: eight or more phone characters. */
  predicate IsPhoneGroup(g: string)
  {
    |g| >= 8 && AllChars(g, IsPhoneChar)
  }

  /** `\s*` from `d`, then the phone group. */
  function PhoneAfterColon(s: string, d: nat): (r: Option<string>)
    ensures r.Some? ==> IsPhoneGroup(r.value)
  {
    StarThenHolds(s, d, IsSpace, (e: nat) => PhoneGroupAt(s, e), IsPhoneGroup);
    StarThen(s, d, IsSpace, (e: nat) => PhoneGroupAt(s, e))
  }

  /** `:?\s*` from `c`, then the phone group. */
  function PhoneAfterSpaces(s: string, c: nat): (r: Option<string>)
    ensures r.Some? ==> IsPhoneGroup(r.value)
  {
    OptThenHolds(s, c, ':', (d: nat) => PhoneAfterColon(s, d), IsPhoneGroup);
    OptThen(s, c, ':', (d: nat) => PhoneAfterColon(s, d))
  }

  /** `\s*:?\s*` from `b`, then the phone group. */
  function PhoneAfterDot(s: string, b: nat): (r: Option<string>)
    ensures r.Some? ==> IsPhoneGroup(r.value)
  {
    StarThenHolds(s, b, IsSpace, (c: nat) => PhoneAfterSpaces(s, c), IsPhoneGroup);
    StarThen(s, b, IsSpace, (c: nat) => PhoneAfterSpaces(s, c))
  }

  /** `word\.?\s*:?\s*([phone class]{8,})` tried at `i` under `re.IGNORECASE`. */
  function PhoneAt(s: string, i: nat, word: string): (r: Option<string>)
    ensures r.Some? ==> |r.value| >= 8 && AllChars(r.value, IsPhoneChar)
  {
    if LitAtIgnoringCase(s, i, word) then
      OptThen(s, i + |word|, '.', (b: nat) => PhoneAfterDot(s, b))
    else None
  }

  /** `re.search` of one phone pattern. */
  function SearchPhone(s: string, word: string): (r: Option<string>)
    ensures r.Some? ==> |r.value| >= 8 && AllChars(r.value, IsPhoneChar)
  {
    match Search(|s|, 0, (i: nat) => PhoneAt(s, i, word))
    case None => None
    case Some((_, g)) => Some(g)
  }

  /** `[Ff]ax` at `i`. */
  function FaxAt(s: string, i: nat): Option<nat>
  {
    if i + 3 <= |s| && (s[i] == 'F' || s[i] == 'f') && s[i + 1] == 'a' && s[i + 2] == 'x' then Some(i + 3) else None
  }

  /** The three labels, in the order the patterns are tried. */
  const PhoneLabels: seq<string> := ["Tel", "Telefon", "Vogelnotruf"]

  /**
   * The phone loop: the first pattern that matches anywhere gives the number,
   * stripped, then cut before any `Fax` and stripped again.
   */
  function PhoneFrom(s: string, labels: seq<string>): (r: string)
    ensures AllChars(r, IsPhoneChar)
  {
    if labels == [] then ""
    else
      match SearchPhone(s, labels[0])
      case Some(g) =>
        var phone := Strip(g);
        StripByKeeps(g, IsSpace, IsPhoneChar);
        var cut := SplitHead(phone, (i: nat) => FaxAt(phone, i));
        StripByKeeps(cut, IsSpace, IsPhoneChar);
        Strip(cut)
      case None => PhoneFrom(s, labels[1..])
  }

  // ---------------------------------------------------------------------------
  // extract_station_info: the record

  /** The text of a block: the texts of its elements, one after the other. */
  function BlockText(b: seq<Element>): string
  {
    if b == [] then "" else b[0].text + BlockText(b[1..])
  }

  /** The `href`s of the links of a block, in document order. */
  function BlockHrefs(b: seq<Element>): seq<string>
  {
    if b == [] then [] else b[0].hrefs + BlockHrefs(b[1..])
  }

  /** `station_html.find('h3')`: the first h3 of the block. */
  function FirstH3(b: seq<Element>): (r: Option<Element>)
    ensures r.Some? ==> r.value.tag == H3 && r.value in b
    ensures r.None? <==> forall k | 0 <= k < |b| :: b[k].tag != H3
  {
    if b == [] then None
    else if b[0].tag == H3 then Some(b[0])
    else
      var r := FirstH3(b[1..]);
      assert forall k | 1 <= k < |b| :: b[k] == b[1..][k - 1];
      r
  }

  /** `find('a', href=...)`: the first link whose `href` passes the test. */
  function FirstHref(hrefs: seq<string>, test: string -> bool): (r: Option<string>)
    ensures r.Some? ==> test(r.value) && r.value in hrefs
    ensures r.None? ==> forall k | 0 <= k < |hrefs| :: !test(hrefs[k])
  {
    if hrefs == [] then None
    else if test(hrefs[0]) then Some(hrefs[0])
    else FirstHref(hrefs[1..], test)
  }

  predicate IsMailto(href: string) { StartsWith(href, "mailto:") }

  predicate IsWebLink(href: string) { StartsWith(href, "http") || StartsWith(href, "www") }

  /** The specialization keywords, in the order they are tried. */
  const SpecIndicators: seq<string> :=
    ["Spezialisiert auf", "Greifv\U{F6}gel", "Singv\U{F6}gel", "Mauersegler", "Schwalben",
     "Alle V\U{F6}gel", "Dohlen", "Eulen", "Falken"]

  const DefaultSpecialization: string := "Alle Wildvogelarten"

  /** `r` is one of `lines`, stripped, whose lower case holds `word`. */
  predicate StrippedLineWith(r: string, lines: seq<string>, word: string)
  {
    exists k | 0 <= k < |lines| :: r == Strip(lines[k]) && Contains(LowerStr(lines[k]), word)
  }

  /** The first line that holds `word` when compared in lower case, stripped. */
  function LineWith(lines: seq<string>, word: string): (r: Option<string>)
    ensures r.Some? ==> StrippedLineWith(r.value, lines, word)
  {
    if lines == [] then None
    else if Contains(LowerStr(lines[0]), word) then Some(Strip(lines[0]))
    else
      var r := LineWith(lines[1..], word);
      assert forall k | 1 <= k < |lines| :: lines[k] == lines[1..][k - 1];
      r
  }

  /**
   * The specialization loop: the first keyword found anywhere in the text
   * picks the first line that holds it; no other keyword is looked at.
   */
  function Specialization(text: string, indicators: seq<string>): (r: string)
    ensures r == DefaultSpecialization ||
      exists ind | ind in indicators :: StrippedLineWith(r, Split(text, '\n'), LowerStr(ind))
  {
    if indicators == [] then DefaultSpecialization
    else
      var w := LowerStr(indicators[0]);
      if Contains(LowerStr(text), w) then
        match LineWith(Split(text, '\n'), w)
        case Some(line) =>
          assert indicators[0] in indicators;
          line
        case None => DefaultSpecialization
      else
        var r := Specialization(text, indicators[1..]);
        assert forall ind | ind in indicators[1..] :: ind in indicators;
        r
  }

  /** A stripped line that holds a word starting with a non-space character is not empty. */
  lemma StrippedLineNotEmpty(r: string, lines: seq<string>, w: string)
    requires StrippedLineWith(r, lines, w) && w != [] && !IsSpace(w[0])
    ensures r != ""
  {
    var k :| 0 <= k < |lines| && r == Strip(lines[k]) && Contains(LowerStr(lines[k]), w);
    StripNotEmpty(lines[k], w);
  }

  /** With keywords that start with a non-space character, the specialization is never empty. */
  lemma SpecializationNotEmpty(text: string, indicators: seq<string>)
    requires forall ind | ind in indicators :: ind != "" && !IsSpace(ind[0])
    ensures Specialization(text, indicators) != ""
  {
    var r := Specialization(text, indicators);
    if r != DefaultSpecialization {
      var ind :| ind in indicators && StrippedLineWith(r, Split(text, '\n'), LowerStr(ind));
      assert LowerStr(ind)[0] == Lower(ind[0]);
      StrippedLineNotEmpty(r, Split(text, '\n'), LowerStr(ind));
    }
  }

  /** The page's keywords all start with a letter, so its specialization is never empty. */
  lemma SpecializationPresent(text: string)
    ensures Specialization(text, SpecIndicators) != ""
  {
    forall ind | ind in SpecIndicators
      ensures ind != "" && !IsSpace(ind[0])
    {
      assert IsGermanLetter(ind[0]);
    }
    SpecializationNotEmpty(text, SpecIndicators);
  }

  /** The country of the page's region label, Germany unless it names one of the three other countries. */
  function CountryOf(region: string): (c: string)
    ensures c in {"Deutschland", "\U{D6}sterreich", "Schweiz", "Italien"}
    ensures region in {"\U{D6}sterreich", "Schweiz", "Italien"} ==> c == region
    ensures region !in {"\U{D6}sterreich", "Schweiz", "Italien"} ==> c == "Deutschland"
  {
    if region == "\U{D6}sterreich" then "\U{D6}sterreich"
    else if region == "Schweiz" then "Schweiz"
    else if region == "Italien" then "Italien"
    else "Deutschland"
  }

  /** `plz[0] if len(plz) == 5 else plz[:2]`. */
  function PlzPrefix(plz: string): (r: string)
    requires 4 <= |plz| <= 5
    ensures StartsWith(plz, r)
    ensures |plz| == 5 ==> |r| == 1
    ensures |plz| == 4 ==> |r| == 2
  {
    if |plz| == 5 then plz[..1] else plz[..2]
  }

  /** The address: "street, plz city" when a street ends the text before the code, otherwise "plz city". */
  function Address(before: string, plz: string, city: string): (r: string)
    ensures EndsWith(r, plz + " " + city)
    ensures SearchStreet(before).None? ==> r == plz + " " + city
    ensures SearchStreet(before).Some? ==>
      var (i, e) := SearchStreet(before).value;
      i <= e <= |before| && r == Strip(before[i..e]) + ", " + (plz + " " + city)
  {
    var tail := plz + " " + city;
    match SearchStreet(before)
    case Some((i, e)) =>
      var street := Strip(before[i..e]) + ", ";
      EndsWithAppend(street, tail);
      street + tail
    case None =>
      EndsWithAppend("", tail);
      assert "" + tail == tail;
      tail
  }

  /** The record of one station, every falsy field removed. */
  function StationRecord(name: string, specialization: string, address: string, phone: string,
                         email: string, website: string, plzPrefix: string, region: string): (r: Record)
    requires specialization != "" && address != "" && plzPrefix != ""
    ensures forall k | k in r :: r[k].Str? && r[k].s != ""
    ensures "specialization" in r && r["specialization"] == Str(specialization)
    ensures "address" in r && r["address"] == Str(address)
    ensures "plz_prefix" in r && r["plz_prefix"] == Str(plzPrefix)
    ensures "country" in r && r["country"] == Str(CountryOf(region))
    ensures "name" in r <==> name != ""
    ensures "region" in r <==> region != ""
    ensures "phone" in r <==> phone != ""
    ensures "email" in r <==> email != ""
    ensures "website" in r <==> website != ""
    ensures "name" in r ==> r["name"] == Str(name)
    ensures "region" in r ==> r["region"] == Str(region)
    ensures "phone" in r ==> r["phone"] == Str(phone)
    ensures "email" in r ==> r["email"] == Str(email)
    ensures "website" in r ==> r["website"] == Str(website)
    ensures r.Keys <= {"name", "specialization", "address", "phone", "email", "website", "plz_prefix", "region", "country"}
  {
    var m := map[
      "name" := Str(name),
      "specialization" := Str(specialization),
      "address" := Str(address),
      "phone" := Str(phone),
      "email" := Str(email),
      "website" := Str(website),
      "plz_prefix" := Str(plzPrefix),
      "region" := Str(region),
      "country" := Str(CountryOf(region))];
    assert m["name"] == Str(name) && m["region"] == Str(region);
    assert m["specialization"] == Str(specialization) && m["address"] == Str(address);
    assert m["plz_prefix"] == Str(plzPrefix) && m["country"] == Str(CountryOf(region));
    assert m["phone"] == Str(phone) && m["email"] == Str(email) && m["website"] == Str(website);
    assert forall k | k in m :: m[k].Str?;
    DropFalsy(m)
  }

  /** The `mailto:` link with its scheme removed, or "". */
  function EmailOf(hrefs: seq<string>): string
  {
    match FirstHref(hrefs, IsMailto)
    case Some(h) => ReplaceAll(h, "mailto:", "")
    case None => ""
  }

  /** The first web link, or "" when there is none or it holds `mailto:`. */
  function WebsiteOf(hrefs: seq<string>): string
  {
    match FirstHref(hrefs, IsWebLink)
    case Some(h) => if Contains(h, "mailto:") then "" else h
    case None => ""
  }

  /**
   * `extract_station_info(block, region)`: None without an h3 or without a
   * code followed by a city; otherwise the record, with every falsy field
   * removed. The coordinates drawn at random are not part of the model.
   */
  function ExtractStationInfo(block: seq<Element>, region: string): (r: Option<Record>)
    ensures r.None? <==> FirstH3(block).None? || SearchPlzCity(BlockText(block)).None?
    ensures r.Some? ==> forall k | k in r.value :: r.value[k].Str? && r.value[k].s != ""
    ensures r.Some? ==> "address" in r.value && "plz_prefix" in r.value && "specialization" in r.value
    ensures r.Some? ==> ("name" in r.value <==> Strip(FirstH3(block).value.text) != "")
    ensures r.Some? ==> ("region" in r.value <==> region != "")
    ensures r.Some? ==> "country" in r.value && r.value["country"] == Str(CountryOf(region))
    ensures r.Some? ==>
      && EndsWith(r.value["address"].s, SearchPlzCity(BlockText(block)).value.1 + " " + Strip(SearchPlzCity(BlockText(block)).value.2))
      && StartsWith(SearchPlzCity(BlockText(block)).value.1, r.value["plz_prefix"].s)
      && |r.value["plz_prefix"].s| == (if |SearchPlzCity(BlockText(block)).value.1| == 5 then 1 else 2)
  {
    match FirstH3(block)
    case None => None
    case Some(h3) =>
      var text := BlockText(block);
      var m := SearchPlzCity(text);
      if m.None? then None
      else Some(StationOf(Strip(h3.text), text, m.value.0, m.value.1, m.value.2, BlockHrefs(block), region))
  }

  /**
   * The fields of a block's record: the address built from the text before the
   * code, the specialization, the stripped h3 text as name, and the phone, the
   * e-mail and the website exactly when they are found.
   */
  lemma ExtractStationContents(block: seq<Element>, region: string)
    ensures var r := ExtractStationInfo(block, region);
      r.Some? ==>
      var text := BlockText(block);
      var (start, plz, group) := SearchPlzCity(text).value;
      && start <= |text| && 4 <= |plz| <= 5
      && r.value["address"] == Str(Address(text[..start], plz, Strip(group)))
      && r.value["specialization"] == Str(Specialization(text, SpecIndicators))
      && ("name" in r.value ==> r.value["name"] == Str(Strip(FirstH3(block).value.text)))
      && ("phone" in r.value <==> PhoneFrom(text, PhoneLabels) != "")
      && ("phone" in r.value ==> r.value["phone"] == Str(PhoneFrom(text, PhoneLabels)))
      && ("email" in r.value <==> EmailOf(BlockHrefs(block)) != "")
      && ("email" in r.value ==> r.value["email"] == Str(EmailOf(BlockHrefs(block))))
      && ("website" in r.value <==> WebsiteOf(BlockHrefs(block)) != "")
      && ("website" in r.value ==> r.value["website"] == Str(WebsiteOf(BlockHrefs(block))))
  {
    var r := ExtractStationInfo(block, region);
    if r.Some? {
      var text := BlockText(block);
      var (start, plz, group) := SearchPlzCity(text).value;
      assert r.value == StationOf(Strip(FirstH3(block).value.text), text, start, plz, group, BlockHrefs(block), region);
    }
  }

  /** The record of a block with the name `name` whose text has the code `plz` and the city group `group` at `start`. */
  function StationOf(name: string, text: string, start: nat, plz: string, group: string,
                     hrefs: seq<string>, region: string): (r: Record)
    requires start <= |text| && 4 <= |plz| <= 5
    ensures forall k | k in r :: r[k].Str? && r[k].s != ""
    ensures "address" in r && "plz_prefix" in r && "specialization" in r
    ensures "name" in r <==> name != ""
    ensures "region" in r <==> region != ""
    ensures "country" in r && r["country"] == Str(CountryOf(region))
    ensures EndsWith(r["address"].s, plz + " " + Strip(group))
    ensures StartsWith(plz, r["plz_prefix"].s) && |r["plz_prefix"].s| == (if |plz| == 5 then 1 else 2)
    ensures r["address"] == Str(Address(text[..start], plz, Strip(group)))
    ensures r["specialization"] == Str(Specialization(text, SpecIndicators))
    ensures "name" in r ==> r["name"] == Str(name)
    ensures "phone" in r <==> PhoneFrom(text, PhoneLabels) != ""
    ensures "phone" in r ==> r["phone"] == Str(PhoneFrom(text, PhoneLabels))
    ensures "email" in r <==> EmailOf(hrefs) != ""
    ensures "email" in r ==> r["email"] == Str(EmailOf(hrefs))
    ensures "website" in r <==> WebsiteOf(hrefs) != ""
    ensures "website" in r ==> r["website"] == Str(WebsiteOf(hrefs))
  {
    SpecializationPresent(text);
    StationRecord(name, Specialization(text, SpecIndicators), Address(text[..start], plz, Strip(group)),
      PhoneFrom(text, PhoneLabels), EmailOf(hrefs), WebsiteOf(hrefs), PlzPrefix(plz), region)
  }

  // ---------------------------------------------------------------------------
  // scrape_page

  /** `extract_station_info` for one page's region. */
  function Extractor(region: string): seq<Element> -> Option<Record>
  {
    b => ExtractStationInfo(b, region)
  }

  /** The records of a page: one per block that yields one, in page order. */
  function PageStations(es: seq<Element>, region: string): seq<Record>
  {
    Keep(Blocks(es), Extractor(region))
  }

  /**
   * A page splits at any element that is not a paragraph: its records are those
   * of the two parts. Each block's record depends on that block alone.
   */
  lemma PageStationsAppend(a: seq<Element>, b: seq<Element>, region: string)
    requires b == [] || b[0].tag != P
    ensures PageStations(a + b, region) == PageStations(a, region) + PageStations(b, region)
  {
    BlocksAppend(a, b);
    KeepAppend(Blocks(a), Blocks(b), Extractor(region));
  }

  /** Every record has a name. */
  predicate AllNamed(sts: seq<Record>)
  {
    forall k | 0 <= k < |sts| :: "name" in sts[k]
  }

  /**
   * What `scrape_page` returns for a page: reading `station['name']` of a record
   * without a name raises, and the handler around the whole page returns [].
   */
  function PageAsWritten(es: seq<Element>, region: string): (r: seq<Record>)
    ensures r == PageStations(es, region) || r == []
  {
    var sts := PageStations(es, region);
    if AllNamed(sts) then sts else []
  }

  /** The blocks still to come when `current` is open and `rest` is unread. */
  function Pending(current: seq<Element>, rest: seq<Element>): seq<seq<Element>>
  {
    if current == [] then Blocks(rest)
    else
      var n := LeadingParagraphs(rest);
      [current + rest[..n]] + Blocks(rest[n..])
  }

  /** A paragraph joins the open block. */
  lemma PendingParagraph(current: seq<Element>, e: Element, rest: seq<Element>)
    requires e.tag == P && current != []
    ensures Pending(current, [e] + rest) == Pending(current + [e], rest)
  {
    var er := [e] + rest;
    assert er[1..] == rest;
    var n := LeadingParagraphs(rest);
    assert LeadingParagraphs(er) == 1 + n;
    assert er[..1 + n] == [e] + rest[..n];
    assert er[1 + n..] == rest[n..];
    assert current + er[..1 + n] == current + [e] + rest[..n];
  }

  /** Any other element closes the open block. */
  lemma PendingClose(current: seq<Element>, e: Element, rest: seq<Element>)
    requires e.tag != P && current != []
    ensures Pending(current, [e] + rest) == [current] + Blocks([e] + rest)
  {
    var er := [e] + rest;
    assert LeadingParagraphs(er) == 0;
    assert er[..0] == [] && er[0..] == er;
    assert current + er[..0] == current;
  }

  /** With no block open, an h3 opens one and anything else is passed over. */
  lemma PendingOpen(e: Element, rest: seq<Element>)
    ensures e.tag == H3 ==> Blocks([e] + rest) == Pending([e], rest)
    ensures e.tag != H3 ==> Blocks([e] + rest) == Pending([], rest)
  {
    var er := [e] + rest;
    assert er[1..] == rest;
    if e.tag == H3 {
      var n := LeadingParagraphs(rest);
      assert er[..1 + n] == [e] + rest[..n];
      assert er[1 + n..] == rest[n..];
    }
  }

  /** The element after the open block is not a paragraph: the open block is done and the element starts afresh. */
  lemma PendingNext(bs: seq<seq<Element>>, done: seq<seq<Element>>, current: seq<Element>, e: Element, rest: seq<Element>)
    requires e.tag != P && bs == done + Pending(current, [e] + rest)
    ensures current != [] ==> bs == (done + [current]) + Pending(if e.tag == H3 then [e] else [], rest)
    ensures current == [] ==> bs == done + Pending(if e.tag == H3 then [e] else [], rest)
  {
    PendingOpen(e, rest);
    if current != [] {
      PendingClose(current, e, rest);
      AppendAssoc(done, [current], Blocks([e] + rest));
    }
  }

  /** A block under a blank heading, with a postal code and a city. */
  const NamelessBlock: seq<Element> := [Element(H3, " ", []), Element(P, "70173 Stuttgart", [])]

  /** A block under a named heading, with a postal code and a city. */
  const NamedBlock: seq<Element> := [Element(H3, "Vogelhilfe", []), Element(P, "10115 Berlin", [])]

  lemma BlockTextOfTwo(b: seq<Element>)
    requires |b| == 2
    ensures BlockText(b) == b[0].text + b[1].text
  {
    assert b[1..][1..] == [];
    assert BlockText(b[1..]) == b[1].text + "" == b[1].text;
  }

  /** A heading and a paragraph whose text has five digits, a space and a letter at `at` yield a record. */
  lemma TwoElementBlockYields(b: seq<Element>, at: nat, region: string)
    requires |b| == 2 && b[0].tag == H3
    requires at + 7 <= |b[1].text|
    requires forall k | at <= k < at + 5 :: IsDigit(b[1].text[k])
    requires IsSpace(b[1].text[at + 5]) && IsGermanLetter(b[1].text[at + 6])
    ensures ExtractStationInfo(b, region).Some?
    ensures "name" in ExtractStationInfo(b, region).value <==> Strip(b[0].text) != ""
  {
    CodeInSecondElement(b, at);
    assert FirstH3(b) == Some(b[0]);
  }

  /** Five digits, a space and a letter in the second element: the block's text has a code and a city. */
  lemma CodeInSecondElement(b: seq<Element>, at: nat)
    requires |b| == 2
    requires at + 7 <= |b[1].text|
    requires forall k | at <= k < at + 5 :: IsDigit(b[1].text[k])
    requires IsSpace(b[1].text[at + 5]) && IsGermanLetter(b[1].text[at + 6])
    ensures SearchPlzCity(BlockText(b)).Some?
  {
    var u := b[1].text;
    var t := b[0].text + u;
    var i := |b[0].text| + at;
    assert forall k | i <= k < i + 5 :: IsDigit(t[k]) by {
      forall k | i <= k < i + 5 ensures IsDigit(t[k]) {
        assert t[k] == u[k - |b[0].text|];
      }
    }
    assert t[i + 5] == u[at + 5] && t[i + 6] == u[at + 6];
    PlzCityFound(t, i);
    SearchPlzCityFinds(t, i);
    BlockTextOfTwo(b);
  }

  /** A heading and one paragraph form one block. */
  lemma BlocksOfTwo(b: seq<Element>)
    requires |b| == 2 && b[0].tag == H3 && b[1].tag == P
    ensures Blocks(b) == [b]
  {
    assert LeadingParagraphs(b[1..]) == 1;
    assert b[1 + 1..] == [];
    assert b[..1 + 1] == b;
  }

  /** A heading, then a paragraph that starts with five digits, a space and a letter. */
  predicate CodedBlock(b: seq<Element>)
  {
    && |b| == 2 && b[0].tag == H3 && b[1].tag == P && 7 <= |b[1].text|
    && (forall k | 0 <= k < 5 :: IsDigit(b[1].text[k]))
    && IsSpace(b[1].text[5]) && IsGermanLetter(b[1].text[6])
  }

  lemma CodedBlockRecord(b: seq<Element>, region: string)
    requires CodedBlock(b)
    ensures Extractor(region)(b).Some?
    ensures "name" in Extractor(region)(b).value <==> Strip(b[0].text) != ""
  {
    TwoElementBlockYields(b, 0, region);
  }

  /**
   * A page of two blocks that both yield a record, the first without a name:
   * the page has two records, not all of them named.
   */
  lemma NamelessBlockEmptiesPage(b1: seq<Element>, b2: seq<Element>, f: seq<Element> -> Option<Record>)
    requires |b1| == 2 && b1[0].tag == H3 && b1[1].tag == P
    requires |b2| == 2 && b2[0].tag == H3 && b2[1].tag == P
    requires f(b1).Some? && f(b2).Some? && "name" !in f(b1).value
    ensures Keep(Blocks(b1 + b2), f) == [f(b1).value, f(b2).value]
    ensures !AllNamed(Keep(Blocks(b1 + b2), f))
  {
    BlocksOfTwo(b1);
    BlocksOfTwo(b2);
    BlocksAppend(b1, b2);
    assert Blocks(b1 + b2) == [b1] + [b2];
    KeepSnoc([b1], b2, f);
    KeepSnoc([], b1, f);
    assert [] + [b1] == [b1];
    assert Keep(Blocks(b1 + b2), f)[0] == f(b1).value;
  }

  /** The two example blocks: `scrape_page` returns no record for the page they form. */
  lemma NamelessExample()
    ensures |PageStations(NamelessBlock + NamedBlock, "")| == 2
    ensures PageAsWritten(NamelessBlock + NamedBlock, "") == []
  {
    ExampleBlocksCoded();
    CodedBlockRecord(NamelessBlock, "");
    CodedBlockRecord(NamedBlock, "");
    NamelessBlockEmptiesPage(NamelessBlock, NamedBlock, Extractor(""));
  }

  lemma ExampleBlocksCoded()
    ensures CodedBlock(NamelessBlock) && Strip(NamelessBlock[0].text) == ""
    ensures CodedBlock(NamedBlock)
  {
    assert Strip(" ") == "";
  }

  /** A record without a name in any block of the page: not every record has a name. */
  lemma NamelessFound(es: seq<Element>, f: seq<Element> -> Option<Record>, done: seq<seq<Element>>,
                      current: seq<Element>, rest: seq<seq<Element>>)
    requires Blocks(es) == done + [current] + rest
    requires f(current).Some? && "name" !in f(current).value
    ensures !AllNamed(Keep(Blocks(es), f))
  {
    KeepHas(done, current, rest, f);
  }

  /**
   * Closing a block, the step `scrape_page` repeats at an `h3`, an `hr` and the
   * end of the page: the block's record, if any, joins the others; logging its
   * `name` fails when it has none.
   */
  method CloseBlock(current: seq<Element>, extract: seq<Element> -> Option<Record>,
                    stations: seq<Record>, ghost done: seq<seq<Element>>)
    returns (stations': seq<Record>, nameless: bool)
    requires stations == Keep(done, extract) && AllNamed(stations)
    ensures nameless <==> extract(current).Some? && "name" !in extract(current).value
    ensures !nameless ==> stations' == Keep(done + [current], extract) && AllNamed(stations')
  {
    var station := extract(current);
    nameless := station.Some? && "name" !in station.value;
    KeepSnoc(done, current, extract);
    stations' := stations + (if station.Some? then [station.value] else []);
  }

  /**
   * The loop of `scrape_page` over the page's `h3`, `p` and `hr` elements in
   * document order: an `h3` opens a block (closing the open one), a `p` joins
   * the open block, an `hr` closes it; each closed block's record, if `extract`
   * yields one, is kept. The first kept record without a name ends the page
   * with no records.
   */
  method ScrapeBlocks(es: seq<Element>, extract: seq<Element> -> Option<Record>) returns (stations: seq<Record>)
    ensures AllNamed(Keep(Blocks(es), extract)) ==> stations == Keep(Blocks(es), extract)
    ensures !AllNamed(Keep(Blocks(es), extract)) ==> stations == []
  {
    stations := [];
    var current: seq<Element> := [];
    ghost var done: seq<seq<Element>> := [];
    var i := 0;
    while i < |es|
      invariant 0 <= i <= |es|
      invariant Blocks(es) == done + Pending(current, es[i..])
      invariant stations == Keep(done, extract)
      invariant AllNamed(stations)
    {
      var e := es[i];
      ghost var rest := es[i + 1..];
      assert es[i..] == [e] + rest;
      if e.tag == P {
        if current != [] {
          PendingParagraph(current, e, rest);
          current := current + [e];
        } else {
          PendingOpen(e, rest);
        }
      } else {
        var next: seq<Element> := if e.tag == H3 then [e] else [];
        PendingNext(Blocks(es), done, current, e, rest);
        if current != [] {
          var nameless;
          stations, nameless := CloseBlock(current, extract, stations, done);
          if nameless {
            NamelessFound(es, extract, done, current, Pending(next, rest));
            return [];
          }
          done := done + [current];
        }
        current := next;
      }
      assert Blocks(es) == done + Pending(current, rest);
      i := i + 1;
      assert es[i..] == rest;
    }
    assert es[i..] == [];
    if current != [] {
      assert Blocks(es) == done + [current] + [] by {
        assert current + [][..0] == current;
      }
      var nameless;
      stations, nameless := CloseBlock(current, extract, stations, done);
      if nameless {
        NamelessFound(es, extract, done, current, []);
        return [];
      }
      done := done + [current];
    }
    assert done == Blocks(es);
  }

  /** `scrape_page` on the elements of a page's main content. */
  method ScrapePage(es: seq<Element>, region: string) returns (stations: seq<Record>)
    ensures stations == PageAsWritten(es, region)
  {
    stations := ScrapeBlocks(es, Extractor(region));
  }
}
